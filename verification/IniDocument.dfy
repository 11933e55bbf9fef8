/** A whole text: LoadData of SimpleIni.h, with the signature that it takes away and Save puts in front. */
module IniDocument {
  import opened Options
  import opened IniFormat
  import opened IniStore
  import opened IniText
  import P = IniParse
  import S = IniSections

  /** The loop of LoadData from p on. */
  function LoadFrom(f: Format, b: string, p: int, section: string, st: Store): Store
    requires Ended(b) && 0 <= p < |b|
    decreases |b| - p
  {
    match P.NextEntry(f, b, p, P.Named(section), None)
    case NoMore => st
    case SectionFound(name, comment, next) => LoadFrom(f, b, next, name,
                                                       S.AddEntry(f, st, name, None, None, comment, false))
    case KeyFound(name, key, value, comment, next) =>
      LoadFrom(f, b, next, name, S.AddEntry(f, st, name, Some(key), Some(value), comment, false))
  }

  /** The UTF-8 encoding of U+FEFF, which Save can write in front and LoadData takes away. */
  const SIGNATURE: string := "\U{EF}\U{BB}\U{BF}"

  predicate Marked(text: string) {
    SIGNATURE <= text
  }

  function Unmarked(text: string): string {
    if Marked(text) then text[3..] else text
  }

  /** The store and the file comment after loading text, without a signature, into them. */
  function LoadPlain(f: Format, text: string, st: Store, fileComment: Option<string>): (Store, Option<string>) {
    if text == [] then (st, fileComment)
    else
      var b := text + [NUL];
      if fileComment.None? && IsComment(b[0]) then
        (LoadFrom(f, b, Comments(b, 0, false).1, "", st), Some(Comments(b, 0, false).0))
      else (LoadFrom(f, b, 0, "", st), fileComment)
  }

  /** Loading takes away one signature, if there is one. */
  function LoadText(f: Format, text: string, st: Store, fileComment: Option<string>): (Store, Option<string>) {
    LoadPlain(f, Unmarked(text), st, fileComment)
  }

  /** Saving puts one in front, if it is asked for and the store is in UTF-8. */
  function Signed(add: bool, text: string): string {
    if add then SIGNATURE + text else text
  }

  /** What stands between two sections. */
  function Gap(need: bool): string {
    if need then "\n\n" else ""
  }
}
