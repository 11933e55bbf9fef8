/** The switches of CSimpleIniTempl, and which comparator it has. Key-only lines are off. */
module IniFormat {
  datatype Format = Format(noCase: bool, multiKey: bool, multiLine: bool, parseQuotes: bool, spaces: bool)
}
