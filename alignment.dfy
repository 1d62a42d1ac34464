/** The alignment rows the alignment scripts read and write: an identifier, a description and
    the aligned sequence (gaps included). */
module Alignment {
  datatype Row = Row(id: string, description: string, sequence: string)
}
