/** The part of a search result that the panel's decisions depend on. */
module Documents {
  import opened VirtualPaths

  /** A result document: its canonical path and whether it is an email. */
  datatype Document = Document(path: Path, isEmail: bool)

  /** Some result is an ordinary file (not an email). */
  predicate HasFile(docs: seq<Document>) {
    exists i :: 0 <= i < |docs| && !docs[i].isEmail
  }

  /** Some result is an email. */
  predicate HasEmail(docs: seq<Document>) {
    exists i :: 0 <= i < |docs| && docs[i].isEmail
  }
}
