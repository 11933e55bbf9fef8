/** What Save of SimpleIni.h writes, as text. The newline is "\n" and key-only lines are off. */
module IniPrint {
  import opened Options
  import opened IniFormat
  import opened IniText

  const END: string := "END_OF_TEXT"

  predicate HasNewLine(v: string) {
    exists i :: 0 <= i < |v| && IsNewLineChar(v[i])
  }

  predicate SpaceFirst(v: string) {
    v != [] && IsSpace(v[0])
  }

  predicate SpaceLast(v: string) {
    v != [] && IsSpace(v[|v| - 1])
  }

  predicate IsMultiLineData(v: string) {
    SpaceFirst(v) || HasNewLine(v) || SpaceLast(v)
  }

  /** A leading white space decides before newlines are looked for. */
  predicate IsSingleLineQuotedValue(v: string) {
    SpaceFirst(v) || (!HasNewLine(v) && SpaceLast(v))
  }

  function MultiLineOut(text: string): string {
    if text == [] then [] else text + "\n"
  }

  predicate Quotes(f: Format, v: string) {
    f.parseQuotes && IsSingleLineQuotedValue(v)
  }

  predicate Spreads(f: Format, v: string) {
    !Quotes(f, v) && f.multiLine && IsMultiLineData(v)
  }

  function ValueText(f: Format, v: string): string {
    if Quotes(f, v) then "\"" + v + "\""
    else if Spreads(f, v) then "<<<" + END + "\n" + MultiLineOut(v) + END
    else v
  }

  function Separator(f: Format): string {
    if f.spaces then " = " else "="
  }

  datatype Item = Item(key: string, value: string, comment: Option<string>)

  datatype Sect = Sect(name: string, comment: Option<string>, items: seq<Item>)

  function ItemText(f: Format, i: Item): string {
    (if i.comment.Some? then "\n" + MultiLineOut(i.comment.value) else "") + i.key + Separator(f)
      + ValueText(f, i.value) + "\n"
  }

  function ItemsText(f: Format, items: seq<Item>): string {
    if items == [] then "" else ItemText(f, items[0]) + ItemsText(f, items[1..])
  }

  function Header(name: string): string {
    if name == [] then "" else "[" + name + "]\n"
  }

  function SectText(f: Format, s: Sect, needNewLine: bool): string {
    (if needNewLine then "\n\n" else "") + (if s.comment.Some? then MultiLineOut(s.comment.value) else "")
    + Header(s.name) + ItemsText(f, s.items)
  }

  function SectsText(f: Format, sects: seq<Sect>, needNewLine: bool): string {
    if sects == [] then "" else SectText(f, sects[0], needNewLine) + SectsText(f, sects[1..], true)
  }

  function SaveText(f: Format, fileComment: Option<string>, sects: seq<Sect>): string {
    if fileComment.Some? then MultiLineOut(fileComment.value) + SectsText(f, sects, true)
    else SectsText(f, sects, false)
  }
}
