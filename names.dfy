/**
 * Naming in the generated wrappers: `_reform_name`, which turns a VTK
 * name into an attribute or method name, and the rewrite of a trait
 * definition that opens its `help=` argument in `_write_trait`.
 */
module Names {
  import opened PyStrings

  /**
   * Python 3's reserved words, as `keyword.iskeyword` knows them, listed in
   * three alphabetical runs so that facts about each word can be proved a
   * run at a time.
   */
  const Keywords: set<string> := KeywordsAtoE + KeywordsFtoN + KeywordsOtoY

  const KeywordsAtoE: set<string> := {
    "False", "None", "True", "and", "as", "assert", "async", "await",
    "break", "class", "continue", "def", "del", "elif", "else", "except"
  }

  const KeywordsFtoN: set<string> := {
    "finally", "for", "from", "global", "if", "import", "in", "is",
    "lambda", "nonlocal", "not"
  }

  const KeywordsOtoY: set<string> := {
    "or", "pass", "raise", "return", "try", "while", "with", "yield"
  }

  predicate IsLower(c: char) { 'a' <= c <= 'z' }

  predicate IsUpperChar(c: char) { 'A' <= c <= 'Z' }

  /** `name.isupper()`: some cased character, and no lower-case one. */
  predicate IsUpper(name: string)
  {
    (exists i :: 0 <= i < |name| && IsUpperChar(name[i])) &&
    (forall i :: 0 <= i < |name| ==> !IsLower(name[i]))
  }

  /** The words of `words` end in a lower-case letter. */
  predicate EndLower(words: set<string>)
  {
    forall k :: k in words ==> |k| > 0 && IsLower(k[|k| - 1])
  }

  lemma KeywordsAtoEEndLower()
    ensures EndLower(KeywordsAtoE)
  {
  }

  lemma KeywordsFtoNEndLower()
    ensures EndLower(KeywordsFtoN)
  {
  }

  lemma KeywordsOtoYEndLower()
    ensures EndLower(KeywordsOtoY)
  {
  }

  /** Every reserved word ends in a lower-case letter. */
  lemma KeywordsEndLower()
    ensures EndLower(Keywords)
  {
    KeywordsAtoEEndLower();
    KeywordsFtoNEndLower();
    KeywordsOtoYEndLower();
  }

  /** "tex", the name "TeX" reforms to, is not a reserved word. */
  lemma TexIsNoKeyword(w: string)
    requires w == "tex"
    ensures w !in Keywords
  {
    assert w !in KeywordsAtoE;
    assert w !in KeywordsFtoN;
    assert w !in KeywordsOtoY;
  }

  /** No reserved word is all upper case, and none ends in `_`. */
  lemma KeywordShapes(name: string)
    ensures IsUpper(name) ==> name !in Keywords
    ensures |name| > 0 && name[|name| - 1] == '_' ==> name !in Keywords
  {
    KeywordsEndLower();
    assert EndLower(Keywords);
  }

  /**
   * `_reform_name(name, method)`: "TeX" becomes "tex"; an all-upper-case
   * method name is kept; anything else goes through the camel-case
   * conversion `camel`, and a reserved word gets a trailing `_`.
   */
  function ReformName(name: string, isMethod: bool, camel: string -> string): (r: string)
    ensures r !in Keywords
    ensures name == "TeX" ==> r == "tex"
    ensures name != "TeX" && isMethod && IsUpper(name) ==> r == name
  {
    if name == "TeX" then
      TexIsNoKeyword("tex");
      "tex"
    else if IsUpper(name) && isMethod then
      KeywordShapes(name);
      name
    else
      var res := camel(name);
      if res in Keywords then
        KeywordShapes(res + "_");
        res + "_"
      else res
  }

  /** The conversion is kept whenever it is not a reserved word, and only escaped otherwise. */
  lemma ReformNameConverts(name: string, isMethod: bool, camel: string -> string)
    requires name != "TeX" && !(IsUpper(name) && isMethod)
    ensures ReformName(name, isMethod, camel) == camel(name) || ReformName(name, isMethod, camel) == camel(name) + "_"
    ensures ReformName(name, isMethod, camel) == camel(name) <==> camel(name) !in Keywords
  {
    var res := camel(name);
    if res in Keywords {
      assert |res + "_"| != |res|;
    }
  }

  /**
   * The method name `_write_tvtk_method` uses: the reformed name, with
   * a `_` appended when it is a reserved word. That second guard never
   * fires, so the method name is the reformed name.
   */
  function MethodName(vtkName: string, camel: string -> string): (r: string)
    ensures r == ReformName(vtkName, true, camel)
    ensures r !in Keywords
  {
    var name := ReformName(vtkName, true, camel);
    if name in Keywords then name + "_" else name
  }

  // ---------------------------------------------------------------------
  // The help argument of a trait definition
  // ---------------------------------------------------------------------

  /** Opening minus closing parentheses. */
  function Balance(s: string): int
  {
    if |s| == 0 then 0
    else (if s[0] == '(' then 1 else if s[0] == ')' then -1 else 0) + Balance(s[1..])
  }

  lemma {:induction false} BalanceConcat(a: string, b: string)
    ensures Balance(a + b) == Balance(a) + Balance(b)
    decreases |a|
  {
    if |a| == 0 {
      assert a + b == b;
    } else {
      assert (a + b)[1..] == a[1..] + b;
      BalanceConcat(a[1..], b);
    }
  }

  /**
   * The trait definition with its `help=` argument opened: a definition
   * ending in `)` loses it and continues with `, help=\`; any other gets
   * `(help=\`. The closing parenthesis is written after the help text.
   * What comes before the help argument is the definition, without its
   * closing `)` when it had one.
   */
  function HelpSuffix(tDef: string): (r: string)
    ensures EndsWith(r, "help=\\") && !EndsWith(r, ")")
    ensures EndsWith(tDef, ")") ==> StartsWith(r, tDef[..|tDef| - 1])
    ensures !EndsWith(tDef, ")") ==> StartsWith(r, tDef)
  {
    var r := if EndsWith(tDef, ")") then tDef[..|tDef| - 1] + ", help=\\" else tDef + "(help=\\";
    assert EndsWith(tDef, ")") ==> r[..|tDef| - 1] == tDef[..|tDef| - 1];
    assert !EndsWith(tDef, ")") ==> r[..|tDef|] == tDef;
    assert r[|r| - 6..] == "help=\\";
    assert r[|r| - 1..] == "\\" != ")";
    r
  }

  /**
   * The rewrite leaves exactly one parenthesis open, so the `)` written
   * after the help text balances the definition again.
   */
  lemma HelpSuffixBalances(tDef: string)
    ensures Balance(HelpSuffix(tDef)) == Balance(tDef) + 1
    ensures Balance(HelpSuffix(tDef) + ")") == Balance(tDef)
  {
    var h := HelpSuffix(tDef);
    var comma, open := ", help=\\", "(help=\\";
    SuffixBalances(comma, open, ")");
    if EndsWith(tDef, ")") {
      var head := tDef[..|tDef| - 1];
      assert tDef == head + ")";
      assert h == head + comma;
      BalanceConcat(head, ")");
      BalanceConcat(head, comma);
    } else {
      assert h == tDef + open;
      BalanceConcat(tDef, open);
    }
    BalanceConcat(h, ")");
  }

  /** The balance of the pieces the rewrite appends. */
  lemma SuffixBalances(comma: string, open: string, close: string)
    requires comma == ", help=\\" && open == "(help=\\" && close == ")"
    ensures Balance(comma) == 0 && Balance(open) == 1 && Balance(close) == -1
  {
    assert '(' !in comma && ')' !in comma;
    NoParensBalance(comma);
    assert '(' !in open[1..] && ')' !in open[1..];
    NoParensBalance(open[1..]);
    NoParensBalance(close[1..]);
  }

  /** Text without parentheses is balanced. */
  lemma {:induction false} NoParensBalance(s: string)
    requires '(' !in s && ')' !in s
    ensures Balance(s) == 0
  {
    if |s| > 0 {
      assert s[0] in s;
      assert forall c :: c in s[1..] ==> c in s;
      NoParensBalance(s[1..]);
    }
  }
}
