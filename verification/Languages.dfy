/** The language table of src/utils/code_highlight.c. */
module Languages {

  /** What the scanner needs to know about a language; "" and [] mean "none". */
  datatype LangDef = LangDef(
    keywords: seq<string>,
    lineComments: seq<string>,
    blockOpen: string,
    blockClose: string,
    quotes: string,
    preMarkers: seq<string>,
    nocase: bool := false,            // keywords match regardless of case
    cPreproc: bool := false,          // '#' opening a line starts a directive
    dollarVars: bool := false,        // "$name", "${...}" are variables
    shellSpecials: bool := false,     // "$1", "$#", "$?", ... are variables too
    dollarIdent: bool := false,       // '$' is a plain identifier character
    hashWordStart: bool := false,     // '#' only comments at a word boundary
    multilineStrings: bool := false,  // every string may span lines
    tripleQuotes: bool := false,      // block strings in triple quotes
    css: bool := false)               // property names, @rules, #hex colors, !important

  const KW_JS: seq<string> := [
    "async", "await", "break", "case", "catch", "class", "const", "continue", "debugger", "default",
    "delete", "do", "else", "export", "extends", "false", "finally", "for", "from", "function", "get",
    "if", "import", "in", "instanceof", "let", "new", "null", "of", "return", "set", "static", "super",
    "switch", "this", "throw", "true", "try", "typeof", "undefined", "var", "void", "while", "with",
    "yield"
  ]

  const KW_C: seq<string> := [
    "auto", "bool", "break", "case", "catch", "char", "class", "const", "constexpr", "continue",
    "default", "delete", "do", "double", "else", "enum", "extern", "false", "float", "for", "friend",
    "goto", "if", "inline", "int", "long", "namespace", "new", "nullptr", "NULL", "operator",
    "private", "protected", "public", "register", "restrict", "return", "short", "signed", "sizeof",
    "static", "struct", "switch", "template", "this", "throw", "true", "try", "typedef", "typename",
    "union", "unsigned", "using", "virtual", "void", "volatile", "while"
  ]

  const KW_PYTHON: seq<string> := [
    "False", "None", "True", "and", "as", "assert", "async", "await", "break", "class", "continue",
    "def", "del", "elif", "else", "except", "finally", "for", "from", "global", "if", "import", "in",
    "is", "lambda", "nonlocal", "not", "or", "pass", "raise", "return", "self", "try", "while", "with",
    "yield"
  ]

  const KW_PHP: seq<string> := [
    "abstract", "and", "array", "as", "break", "callable", "case", "catch", "class", "clone", "const",
    "continue", "declare", "default", "do", "echo", "else", "elseif", "empty", "endfor", "endforeach",
    "endif", "endswitch", "endwhile", "extends", "false", "final", "finally", "fn", "for", "foreach",
    "function", "global", "goto", "if", "implements", "include", "include_once", "instanceof",
    "interface", "isset", "list", "match", "namespace", "new", "null", "or", "print", "private",
    "protected", "public", "readonly", "require", "require_once", "return", "static", "switch",
    "throw", "trait", "true", "try", "unset", "use", "var", "while", "xor", "yield"
  ]

  const KW_BASH: seq<string> := [
    "alias", "break", "case", "cd", "continue", "declare", "do", "done", "echo", "elif", "else",
    "esac", "eval", "exec", "exit", "export", "false", "fi", "for", "function", "if", "in", "local",
    "printf", "read", "readonly", "return", "select", "set", "shift", "source", "test", "then", "time",
    "trap", "true", "unset", "until", "while"
  ]

  const KW_SQL: seq<string> := [
    "ADD", "ALL", "ALTER", "AND", "AS", "ASC", "AVG", "BETWEEN", "BOOLEAN", "BY", "CASE", "CHAR",
    "COUNT", "CREATE", "DATABASE", "DATE", "DEFAULT", "DELETE", "DESC", "DISTINCT", "DROP", "ELSE",
    "END", "EXISTS", "FALSE", "FOREIGN", "FROM", "FULL", "GRANT", "GROUP", "HAVING", "IN", "INDEX",
    "INNER", "INSERT", "INT", "INTEGER", "INTO", "IS", "JOIN", "KEY", "LEFT", "LIKE", "LIMIT", "MAX",
    "MIN", "NOT", "NULL", "OFFSET", "ON", "OR", "ORDER", "OUTER", "PRIMARY", "REFERENCES", "RIGHT",
    "SELECT", "SET", "SUM", "TABLE", "TEXT", "THEN", "TRUE", "UNION", "UNIQUE", "UPDATE", "USE",
    "VALUES", "VARCHAR", "VIEW", "WHEN", "WHERE"
  ]

  datatype Lang = Plain | Html | Code(def: LangDef)

  /** A marker opens something visible on its own line. */
  predicate IsMarker(m: string) { m != "" && m[0] != '\n' }

  predicate WellFormed(L: LangDef) {
    && (L.blockOpen != "" ==> IsMarker(L.blockClose))
    && (forall i :: 0 <= i < |L.lineComments| ==> IsMarker(L.lineComments[i]))
    && (forall i :: 0 <= i < |L.preMarkers| ==> IsMarker(L.preMarkers[i]))
    && '\\' !in L.quotes && '\n' !in L.quotes
  }

  const JAVASCRIPT: LangDef := LangDef(KW_JS, ["//"], "/*", "*/", "\"'`", [], dollarIdent := true)
  const C_CPP: LangDef := LangDef(KW_C, ["//"], "/*", "*/", "\"'", [], cPreproc := true)
  const PYTHON: LangDef := LangDef(KW_PYTHON, ["#"], "", "", "\"'", [], tripleQuotes := true)
  const CSS: LangDef := LangDef([], [], "/*", "*/", "\"'", [], css := true)
  const PHP: LangDef :=
    LangDef(KW_PHP, ["//", "#"], "/*", "*/", "\"'", ["<?php", "<?=", "?>"], nocase := true, dollarVars := true)
  const BASH: LangDef :=
    LangDef(KW_BASH, ["#"], "", "", "\"'`", [], dollarVars := true, shellSpecials := true,
            hashWordStart := true, multilineStrings := true)
  const SQL: LangDef := LangDef(KW_SQL, ["--"], "/*", "*/", "\"'`", [], nocase := true)

  function FindLang(key: string): Lang {
    if key == "javascript" then Code(JAVASCRIPT)
    else if key == "html" then Html
    else if key == "c" then Code(C_CPP)
    else if key == "python" then Code(PYTHON)
    else if key == "css" then Code(CSS)
    else if key == "php" then Code(PHP)
    else if key == "bash" then Code(BASH)
    else if key == "sql" then Code(SQL)
    else Plain
  }

  lemma AllWellFormed(key: string)
    ensures FindLang(key).Code? ==> WellFormed(FindLang(key).def)
  {
    hide WellFormed, KW_JS, KW_C, KW_PYTHON, KW_PHP, KW_BASH, KW_SQL;
    SomeWellFormed();
    OthersWellFormed();
  }

  lemma SomeWellFormed()
    ensures WellFormed(JAVASCRIPT) && WellFormed(C_CPP) && WellFormed(PYTHON) && WellFormed(CSS)
  {
    hide KW_JS, KW_C, KW_PYTHON;
  }

  lemma OthersWellFormed()
    ensures WellFormed(PHP) && WellFormed(BASH) && WellFormed(SQL)
  {
    hide KW_PHP, KW_BASH, KW_SQL;
  }
}
