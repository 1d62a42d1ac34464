/** The worked example of the record classifier's pattern builder: the diterpene exemplar
    "dolastadiene" finds the protein name "dolasta-1(15),8-diene synthase", whose locant
    "-1(15),8-" sits before the suffix. Each step is its own small lemma so that the
    verifier never has to evaluate the builder on literals by unfolding. */
module PatternExample {
  import opened Wrappers
  import opened Text
  import opened Pattern

  lemma DieneIndex()
    ensures IndexOf("dolastadiene", "diene") == Some(7)
  {
    var s := "dolastadiene";
    var t := s[1..];
    assert t == "olastadiene";
    assert OccursAt(t, "diene", 6) by { assert t[6..11] == "diene"; }
    forall j | 0 <= j < 6 ensures t[j] != "diene"[0] {
      assert "diene"[0] == 'd' && t[..6] == "olasta";
      assert t[j] == t[..6][j];
    }
    IndexOfFirstChar(t, "diene", 6);
    assert !OccursAt(s, "diene", 0) by { assert s[0..5][1] == 'o'; }
    assert forall j :: 0 <= j < 1 ==> !OccursAt(s, "diene", j);
    IndexOfSkip(s, "diene", 1, 6);
  }

  lemma DieneStep()
    ensures SuffixStep("dolastadiene", "diene") == "dolasta" + LocantText + "diene"
  {
    DieneIndex();
    ReplaceAllLast("dolastadiene", "diene", LocantText + "diene", 7);
    assert "dolastadiene"[..7] == "dolasta";
  }

  lemma EneIndex()
    ensures IndexOf("dolasta" + LocantText + "diene", "ene") == Some(16)
  {
    var p1 := "dolasta" + LocantText + "diene";
    assert p1 == "dolasta(-.*-)?diene";
    assert p1[16..19] == "ene";
    forall j | 0 <= j < 16 ensures p1[j] != 'e' {}
    IndexOfFirstChar(p1, "ene", 16);
  }

  /** The "ene" step also fires on a "diene" name: its locant group goes inside "diene". */
  lemma EneStep()
    ensures SuffixStep("dolasta" + LocantText + "diene", "ene") == "dolasta" + LocantText + "di" + LocantText + "ene"
  {
    EneIndex();
    var p1 := "dolasta" + LocantText + "diene";
    ReplaceAllLast(p1, "ene", LocantText + "ene", 16);
    assert p1[..16] == "dolasta" + LocantText + "di";
  }

  lemma OlStep()
    ensures SuffixStep("dolasta" + LocantText + "di" + LocantText + "ene", "ol") == "dolasta" + LocantText + "di" + LocantText + "ene"
  {
    var p2 := "dolasta" + LocantText + "di" + LocantText + "ene";
    assert p2[|p2| - 1] == 'e';
  }

  lemma DolastadienePattern()
    ensures TerpenePattern("dolastadiene") == "dolasta" + LocantText + "di" + LocantText + "ene"
  {
    NotContainsChar("dolastadiene", ' ');
    DieneStep();
    EneStep();
    OlStep();
  }

  /** Pattern text made of three bracket-free literal runs separated by locant groups. */
  lemma {:induction false} ParseTwoLocants(a: string, b: string, c: string)
    requires '[' !in a && '(' !in a && '[' !in b && '(' !in b && '[' !in c && '(' !in c
    ensures Parse(a + LocantText + b + LocantText + c) == Lits(a) + ([OptLocant] + (Lits(b) + ([OptLocant] + Lits(c))))
  {
    var t3 := LocantText + c;
    var t2 := b + t3;
    var t1 := LocantText + t2;
    assert a + LocantText + b + LocantText + c == a + t1;
    ParseLits(c, "");
    assert c + "" == c;
    ParseLocantText(c);
    ParseLits(b, t3);
    ParseLocantText(t2);
    ParseLits(a, t1);
  }

  lemma DolastadieneParse()
    ensures Parse("dolasta" + LocantText + "di" + LocantText + "ene") == Lits("dolasta") + ([OptLocant] + (Lits("di") + ([OptLocant] + Lits("ene"))))
  {
    assert '[' !in "dolasta" && '(' !in "dolasta" && '[' !in "di" && '(' !in "di" && '[' !in "ene" && '(' !in "ene";
    ParseTwoLocants("dolasta", "di", "ene");
  }

  lemma DolastadieneTokens()
    ensures TerpeneTokens("dolastadiene") == Lits("dolasta") + ([OptLocant] + (Lits("di") + ([OptLocant] + Lits("ene"))))
  {
    DolastadienePattern();
    DolastadieneParse();
  }

  lemma EneAccepts()
    ensures Accepts([OptLocant] + Lits("ene"), "ene")
  {
    AcceptsEmpty();
    AcceptsLits("ene", [], "ene", "");
    assert Lits("ene") + [] == Lits("ene");
    assert "ene" + "" == "ene";
    AcceptsLocantSkipped(Lits("ene"), "ene");
  }

  lemma DieneAccepts()
    ensures Accepts(Lits("di") + ([OptLocant] + Lits("ene")), "diene")
  {
    EneAccepts();
    AcceptsLits("di", [OptLocant] + Lits("ene"), "di", "ene");
    assert "di" + "ene" == "diene";
  }

  lemma LocantDieneAccepts()
    ensures Accepts([OptLocant] + (Lits("di") + ([OptLocant] + Lits("ene"))), "-1(15),8-diene")
  {
    DieneAccepts();
    AcceptsLocantTaken(Lits("di") + ([OptLocant] + Lits("ene")), "-1(15),8-", "diene");
    assert "-1(15),8-" + "diene" == "-1(15),8-diene";
  }

  lemma DolastadieneAccepts()
    ensures Accepts(Lits("dolasta") + ([OptLocant] + (Lits("di") + ([OptLocant] + Lits("ene")))), "dolasta-1(15),8-diene")
  {
    var rest, tail := [OptLocant] + (Lits("di") + ([OptLocant] + Lits("ene"))), "-1(15),8-diene";
    assert Accepts(rest, tail) by {
      LocantDieneAccepts();
    }
    assert "dolasta" + tail == "dolasta-1(15),8-diene";
    AcceptsLits("dolasta", rest, "dolasta", tail);
  }

  /** The diterpene exemplar "dolastadiene" is found in "dolasta-1(15),8-diene synthase". */
  lemma DolastadieneMatches()
    ensures Search(TerpeneTokens("dolastadiene"), "dolasta-1(15),8-diene synthase")
  {
    DolastadieneTokens();
    DolastadieneAccepts();
    var text := "dolasta-1(15),8-diene synthase";
    assert text[0..21] == "dolasta-1(15),8-diene";
    SearchFinds(TerpeneTokens("dolastadiene"), text, 0, 21);
  }
}
