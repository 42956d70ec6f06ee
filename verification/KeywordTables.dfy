/**
 * The keyword and type tables of src/nbs-md-viewer/md_lang_js.c and md_lang_py.c, which the binary search
 * needs in order, and the highlighting of fences with them.
 */
module KeywordTables {
  import opened Highlight
  import JsLexer
  import PyLexer

  const JsKeywordsAToC: seq<string> := [
    "async", "await", "break", "case", "catch", "class", "const", "continue"
  ]

  lemma JsKeywordsAToCAscending()
    ensures Ascending(JsKeywordsAToC)
  {
    LessAt("async", "await", 1); LessAt("await", "break", 0); LessAt("break", "case", 0);
    LessAt("case", "catch", 2); LessAt("catch", "class", 1); LessAt("class", "const", 1);
    LessAt("const", "continue", 3);
  }

  const JsKeywordsDToE: seq<string> := [
    "debugger", "default", "delete", "do", "else", "export", "extends"
  ]

  lemma JsKeywordsDToEAscending()
    ensures Ascending(JsKeywordsDToE)
  {
    LessAt("debugger", "default", 2); LessAt("default", "delete", 2); LessAt("delete", "do", 1);
    LessAt("do", "else", 0); LessAt("else", "export", 1); LessAt("export", "extends", 2);
  }

  const JsKeywordsFToL: seq<string> := [
    "false", "finally", "for", "from", "function", "if", "import", "in", "instanceof", "let"
  ]

  lemma JsKeywordsFToLAscending()
    ensures Ascending(JsKeywordsFToL)
  {
    LessAt("false", "finally", 1); LessAt("finally", "for", 1); LessAt("for", "from", 1);
    LessAt("from", "function", 1); LessAt("function", "if", 0); LessAt("if", "import", 1);
    LessAt("import", "in", 1); LessAt("in", "instanceof", 2); LessAt("instanceof", "let", 0);
  }

  const JsKeywordsNToT: seq<string> := [
    "new", "null", "of", "return", "super", "switch", "this", "throw", "true", "try", "typeof"
  ]

  lemma JsKeywordsNToTAscending()
    ensures Ascending(JsKeywordsNToT)
  {
    LessAt("new", "null", 1); LessAt("null", "of", 0); LessAt("of", "return", 0); LessAt("return", "super", 0);
    LessAt("super", "switch", 1); LessAt("switch", "this", 0); LessAt("this", "throw", 2);
    LessAt("throw", "true", 1); LessAt("true", "try", 2); LessAt("try", "typeof", 1);
  }

  const JsKeywordsUToY: seq<string> := [
    "undefined", "var", "void", "while", "with", "yield"
  ]

  lemma JsKeywordsUToYAscending()
    ensures Ascending(JsKeywordsUToY)
  {
    LessAt("undefined", "var", 0); LessAt("var", "void", 1); LessAt("void", "while", 0);
    LessAt("while", "with", 1); LessAt("with", "yield", 0);
  }

  const JsKeywords: seq<string> := JsKeywordsAToC + JsKeywordsDToE + JsKeywordsFToL + JsKeywordsNToT + JsKeywordsUToY

  lemma JsKeywordsAscending()
    ensures Ascending(JsKeywords)
  {
    JsKeywordsAToCAscending();
    JsKeywordsDToEAscending();
    JsKeywordsFToLAscending();
    JsKeywordsNToTAscending();
    JsKeywordsUToYAscending();
    LessAt("continue", "debugger", 0);
    AscendingJoin(JsKeywordsAToC, JsKeywordsDToE);
    LessAt("extends", "false", 0);
    AscendingJoin(JsKeywordsAToC + JsKeywordsDToE, JsKeywordsFToL);
    LessAt("let", "new", 0);
    AscendingJoin(JsKeywordsAToC + JsKeywordsDToE + JsKeywordsFToL, JsKeywordsNToT);
    LessAt("typeof", "undefined", 0);
    AscendingJoin(JsKeywordsAToC + JsKeywordsDToE + JsKeywordsFToL + JsKeywordsNToT, JsKeywordsUToY);
  }

  const JsTypesAToR: seq<string> := [
    "Array", "Boolean", "Date", "Error", "Function", "Map", "Number", "Object", "Promise", "RegExp"
  ]

  lemma JsTypesAToRAscending()
    ensures Ascending(JsTypesAToR)
  {
    LessAt("Array", "Boolean", 0); LessAt("Boolean", "Date", 0); LessAt("Date", "Error", 0);
    LessAt("Error", "Function", 0); LessAt("Function", "Map", 0); LessAt("Map", "Number", 0);
    LessAt("Number", "Object", 0); LessAt("Object", "Promise", 0); LessAt("Promise", "RegExp", 0);
  }

  const JsTypesSToW: seq<string> := [
    "Set", "String", "Symbol", "WeakMap", "WeakSet"
  ]

  lemma JsTypesSToWAscending()
    ensures Ascending(JsTypesSToW)
  {
    LessAt("Set", "String", 1); LessAt("String", "Symbol", 1); LessAt("Symbol", "WeakMap", 0);
    LessAt("WeakMap", "WeakSet", 4);
  }

  const JsTypes: seq<string> := JsTypesAToR + JsTypesSToW

  lemma JsTypesAscending()
    ensures Ascending(JsTypes)
  {
    JsTypesAToRAscending();
    JsTypesSToWAscending();
    LessAt("RegExp", "Set", 0);
    AscendingJoin(JsTypesAToR, JsTypesSToW);
  }

  const TsKeywordsAToC: seq<string> := [
    "abstract", "as", "async", "await", "break", "case", "catch", "class", "const", "continue"
  ]

  lemma TsKeywordsAToCAscending()
    ensures Ascending(TsKeywordsAToC)
  {
    LessAt("abstract", "as", 1); LessAt("as", "async", 2); LessAt("async", "await", 1);
    LessAt("await", "break", 0); LessAt("break", "case", 0); LessAt("case", "catch", 2);
    LessAt("catch", "class", 1); LessAt("class", "const", 1); LessAt("const", "continue", 3);
  }

  const TsKeywordsDToE: seq<string> := [
    "debugger", "declare", "default", "delete", "do", "else", "enum", "export", "extends"
  ]

  lemma TsKeywordsDToEAscending()
    ensures Ascending(TsKeywordsDToE)
  {
    LessAt("debugger", "declare", 2); LessAt("declare", "default", 2); LessAt("default", "delete", 2);
    LessAt("delete", "do", 1); LessAt("do", "else", 0); LessAt("else", "enum", 1); LessAt("enum", "export", 1);
    LessAt("export", "extends", 2);
  }

  const TsKeywordsFToF: seq<string> := [
    "false", "finally", "for", "from", "function"
  ]

  lemma TsKeywordsFToFAscending()
    ensures Ascending(TsKeywordsFToF)
  {
    LessAt("false", "finally", 1); LessAt("finally", "for", 1); LessAt("for", "from", 1);
    LessAt("from", "function", 1);
  }

  const TsKeywordsIToM: seq<string> := [
    "if", "implements", "import", "in", "instanceof", "interface", "is", "keyof", "let", "module"
  ]

  lemma TsKeywordsIToMAscending()
    ensures Ascending(TsKeywordsIToM)
  {
    LessAt("if", "implements", 1); LessAt("implements", "import", 3); LessAt("import", "in", 1);
    LessAt("in", "instanceof", 2); LessAt("instanceof", "interface", 2); LessAt("interface", "is", 1);
    LessAt("is", "keyof", 0); LessAt("keyof", "let", 0); LessAt("let", "module", 0);
  }

  const TsKeywordsNToR: seq<string> := [
    "namespace", "never", "new", "null", "of", "private", "protected", "public", "readonly", "return"
  ]

  lemma TsKeywordsNToRAscending()
    ensures Ascending(TsKeywordsNToR)
  {
    LessAt("namespace", "never", 1); LessAt("never", "new", 2); LessAt("new", "null", 1);
    LessAt("null", "of", 0); LessAt("of", "private", 0); LessAt("private", "protected", 2);
    LessAt("protected", "public", 1); LessAt("public", "readonly", 0); LessAt("readonly", "return", 2);
  }

  const TsKeywordsSToU: seq<string> := [
    "super", "switch", "this", "throw", "true", "try", "type", "typeof", "undefined", "unknown"
  ]

  lemma TsKeywordsSToUAscending()
    ensures Ascending(TsKeywordsSToU)
  {
    LessAt("super", "switch", 1); LessAt("switch", "this", 0); LessAt("this", "throw", 2);
    LessAt("throw", "true", 1); LessAt("true", "try", 2); LessAt("try", "type", 1); LessAt("type", "typeof", 4);
    LessAt("typeof", "undefined", 0); LessAt("undefined", "unknown", 2);
  }

  const TsKeywordsVToY: seq<string> := [
    "var", "void", "while", "with", "yield"
  ]

  lemma TsKeywordsVToYAscending()
    ensures Ascending(TsKeywordsVToY)
  {
    LessAt("var", "void", 1); LessAt("void", "while", 0); LessAt("while", "with", 1);
    LessAt("with", "yield", 0);
  }

  const TsKeywords: seq<string> := TsKeywordsAToC + TsKeywordsDToE + TsKeywordsFToF + TsKeywordsIToM + TsKeywordsNToR
    + TsKeywordsSToU + TsKeywordsVToY

  lemma TsKeywordsAscending()
    ensures Ascending(TsKeywords)
  {
    TsKeywordsAToCAscending();
    TsKeywordsDToEAscending();
    TsKeywordsFToFAscending();
    TsKeywordsIToMAscending();
    TsKeywordsNToRAscending();
    TsKeywordsSToUAscending();
    TsKeywordsVToYAscending();
    LessAt("continue", "debugger", 0);
    AscendingJoin(TsKeywordsAToC, TsKeywordsDToE);
    LessAt("extends", "false", 0);
    AscendingJoin(TsKeywordsAToC + TsKeywordsDToE, TsKeywordsFToF);
    LessAt("function", "if", 0);
    AscendingJoin(TsKeywordsAToC + TsKeywordsDToE + TsKeywordsFToF, TsKeywordsIToM);
    LessAt("module", "namespace", 0);
    AscendingJoin(TsKeywordsAToC + TsKeywordsDToE + TsKeywordsFToF + TsKeywordsIToM, TsKeywordsNToR);
    LessAt("return", "super", 0);
    AscendingJoin(TsKeywordsAToC + TsKeywordsDToE + TsKeywordsFToF + TsKeywordsIToM + TsKeywordsNToR, TsKeywordsSToU);
    LessAt("unknown", "var", 0);
    AscendingJoin(TsKeywordsAToC + TsKeywordsDToE + TsKeywordsFToF + TsKeywordsIToM + TsKeywordsNToR
      + TsKeywordsSToU, TsKeywordsVToY);
  }

  const TsTypesAToV: seq<string> := [
    "any", "bigint", "boolean", "never", "null", "number", "object", "string", "symbol", "undefined", "unknown", "void"
  ]

  lemma TsTypesAToVAscending()
    ensures Ascending(TsTypesAToV)
  {
    LessAt("any", "bigint", 0); LessAt("bigint", "boolean", 1); LessAt("boolean", "never", 0);
    LessAt("never", "null", 1); LessAt("null", "number", 2); LessAt("number", "object", 0);
    LessAt("object", "string", 0); LessAt("string", "symbol", 1); LessAt("symbol", "undefined", 0);
    LessAt("undefined", "unknown", 2); LessAt("unknown", "void", 0);
  }

  const TsTypes: seq<string> := JsTypes + TsTypesAToV

  lemma TsTypesAscending()
    ensures Ascending(TsTypes)
  {
    JsTypesAscending();
    TsTypesAToVAscending();
    LessAt("WeakSet", "any", 0);
    AscendingJoin(JsTypes, TsTypesAToV);
  }

  const PyKeywordsFToC: seq<string> := [
    "False", "None", "True", "and", "as", "assert", "async", "await", "break", "class", "continue"
  ]

  lemma PyKeywordsFToCAscending()
    ensures Ascending(PyKeywordsFToC)
  {
    LessAt("False", "None", 0); LessAt("None", "True", 0); LessAt("True", "and", 0); LessAt("and", "as", 1);
    LessAt("as", "assert", 2); LessAt("assert", "async", 2); LessAt("async", "await", 1);
    LessAt("await", "break", 0); LessAt("break", "class", 0); LessAt("class", "continue", 1);
  }

  const PyKeywordsDToG: seq<string> := [
    "def", "del", "elif", "else", "except", "finally", "for", "from", "global"
  ]

  lemma PyKeywordsDToGAscending()
    ensures Ascending(PyKeywordsDToG)
  {
    LessAt("def", "del", 2); LessAt("del", "elif", 0); LessAt("elif", "else", 2); LessAt("else", "except", 1);
    LessAt("except", "finally", 0); LessAt("finally", "for", 1); LessAt("for", "from", 1);
    LessAt("from", "global", 0);
  }

  const PyKeywordsIToR: seq<string> := [
    "if", "import", "in", "is", "lambda", "nonlocal", "not", "or", "pass", "raise", "return"
  ]

  lemma PyKeywordsIToRAscending()
    ensures Ascending(PyKeywordsIToR)
  {
    LessAt("if", "import", 1); LessAt("import", "in", 1); LessAt("in", "is", 1); LessAt("is", "lambda", 0);
    LessAt("lambda", "nonlocal", 0); LessAt("nonlocal", "not", 2); LessAt("not", "or", 0);
    LessAt("or", "pass", 0); LessAt("pass", "raise", 0); LessAt("raise", "return", 1);
  }

  const PyKeywordsTToY: seq<string> := [
    "try", "while", "with", "yield"
  ]

  lemma PyKeywordsTToYAscending()
    ensures Ascending(PyKeywordsTToY)
  {
    LessAt("try", "while", 0); LessAt("while", "with", 1); LessAt("with", "yield", 0);
  }

  const PyKeywords: seq<string> := PyKeywordsFToC + PyKeywordsDToG + PyKeywordsIToR + PyKeywordsTToY

  lemma PyKeywordsAscending()
    ensures Ascending(PyKeywords)
  {
    PyKeywordsFToCAscending();
    PyKeywordsDToGAscending();
    PyKeywordsIToRAscending();
    PyKeywordsTToYAscending();
    LessAt("continue", "def", 0);
    AscendingJoin(PyKeywordsFToC, PyKeywordsDToG);
    LessAt("global", "if", 0);
    AscendingJoin(PyKeywordsFToC + PyKeywordsDToG, PyKeywordsIToR);
    LessAt("return", "try", 0);
    AscendingJoin(PyKeywordsFToC + PyKeywordsDToG + PyKeywordsIToR, PyKeywordsTToY);
  }

  const PyTypesBToO: seq<string> := [
    "bool", "bytearray", "bytes", "complex", "dict", "float", "frozenset", "int", "list", "memoryview", "object"
  ]

  lemma PyTypesBToOAscending()
    ensures Ascending(PyTypesBToO)
  {
    LessAt("bool", "bytearray", 1); LessAt("bytearray", "bytes", 4); LessAt("bytes", "complex", 0);
    LessAt("complex", "dict", 0); LessAt("dict", "float", 0); LessAt("float", "frozenset", 1);
    LessAt("frozenset", "int", 0); LessAt("int", "list", 0); LessAt("list", "memoryview", 0);
    LessAt("memoryview", "object", 0);
  }

  const PyTypesRToT: seq<string> := [
    "range", "set", "str", "tuple", "type"
  ]

  lemma PyTypesRToTAscending()
    ensures Ascending(PyTypesRToT)
  {
    LessAt("range", "set", 0); LessAt("set", "str", 1); LessAt("str", "tuple", 0); LessAt("tuple", "type", 1);
  }

  const PyTypes: seq<string> := PyTypesBToO + PyTypesRToT

  lemma PyTypesAscending()
    ensures Ascending(PyTypes)
  {
    PyTypesBToOAscending();
    PyTypesRToTAscending();
    LessAt("object", "range", 0);
    AscendingJoin(PyTypesBToO, PyTypesRToT);
  }

  // ---------- fences in the three languages ----------

  const MAX_SPANS: nat := 128

  lemma TablesSorted()
    ensures StrictlySorted(JsKeywords) && StrictlySorted(JsTypes) && StrictlySorted(TsKeywords)
            && StrictlySorted(TsTypes)
    ensures StrictlySorted(PyKeywords) && StrictlySorted(PyTypes)
  {
    hide *;
    JsKeywordsAscending();
    JsTypesAscending();
    TsKeywordsAscending();
    TsTypesAscending();
    PyKeywordsAscending();
    PyTypesAscending();
    AscendingIsSorted(JsKeywords);
    AscendingIsSorted(JsTypes);
    AscendingIsSorted(TsKeywords);
    AscendingIsSorted(TsTypes);
    AscendingIsSorted(PyKeywords);
    AscendingIsSorted(PyTypes);
  }

  /** A fence in JavaScript, or in TypeScript: every byte is right exactly when no line needs more than 128 spans. */
  method HighlightJs(text: string, typescript: bool) returns (lines: seq<Line>)
    ensures lines != [] && Join(lines) == text
    ensures var keywords, types := if typescript then TsKeywords else JsKeywords, if typescript then TsTypes
            else JsTypes;
            && (JsLexer.AllHighlight(text, keywords, types, lines)
               <==> JsLexer.AllNeedAtMost(text, keywords, types, lines, MAX_SPANS))
            && (AllShort(lines, MAX_SPANS) ==> JsLexer.AllHighlight(text, keywords, types, lines))
  {
    hide StrictlySorted;
    TablesSorted();
    var keywords, types := if typescript then TsKeywords else JsKeywords, if typescript then TsTypes else JsTypes;
    lines := JsLexer.HighlightFence(text, keywords, types, MAX_SPANS);
  }

  /** A fence in Python. */
  method HighlightPy(text: string) returns (lines: seq<Line>)
    ensures lines != [] && Join(lines) == text
    ensures PyLexer.AllHighlight(text, PyKeywords, PyTypes, lines)
            <==> PyLexer.AllNeedAtMost(text, PyKeywords, PyTypes, lines, MAX_SPANS)
    ensures AllShort(lines, MAX_SPANS) ==> PyLexer.AllHighlight(text, PyKeywords, PyTypes, lines)
  {
    hide StrictlySorted;
    TablesSorted();
    var tokeniser := new PyLexer.Tokeniser(PyKeywords, PyTypes);
    lines := tokeniser.HighlightFence(text, MAX_SPANS);
  }
}
