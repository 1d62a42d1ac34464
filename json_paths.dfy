/** Where the scripts put one JSON document per record. */
module JsonPaths {

  /** `json_dir + "/" + accession + ".json"` */
  function DocumentPath(dir: string, accession: string): (p: string)
    ensures |p| == |dir| + |accession| + 6
    ensures p[..|dir|] == dir && p[|dir|] == '/'
    ensures p[|dir| + 1..|p| - 5] == accession && p[|p| - 5..] == ".json"
  {
    dir + "/" + accession + ".json"
  }

  /** Distinct accessions get distinct documents, so no record's document replaces another's. */
  lemma DocumentPathInjective(dir: string, a: string, b: string)
    requires DocumentPath(dir, a) == DocumentPath(dir, b)
    ensures a == b
  {
    var p := DocumentPath(dir, a);
    assert a == p[|dir| + 1..|p| - 5];
  }
}
