/** Identifiers that are safe in C++, and the reserved words. */
module Identifiers {

  predicate IsLetter(c: char) { 'a' <= c <= 'z' || 'A' <= c <= 'Z' }

  predicate IsDigit(c: char) { '0' <= c <= '9' }

  predicate IdentifierChar(c: char) { IsLetter(c) || IsDigit(c) || c == '_' }

  predicate AllIdentifierChars(s: string) {
    forall i :: 0 <= i < |s| ==> IdentifierChar(s[i])
  }

  /** No two underscores in a row. */
  predicate NoDouble(s: string) {
    forall i :: 0 <= i < |s| - 1 ==> s[i] != '_' || s[i + 1] != '_'
  }

  predicate EndsWithUnderscore(s: string) { s != "" && s[|s| - 1] == '_' }

  predicate StartsWithUnderscore(s: string) { s != "" && s[0] == '_' }

  /** The regular expression [A-Za-z_][A-Za-z0-9_]*. */
  predicate IsIdentifier(s: string) {
    s != "" && !IsDigit(s[0]) && AllIdentifierChars(s)
  }

  /** _is_portable_identifier. */
  predicate Portable(s: string) {
    IsIdentifier(s) && s !in KEYWORDS && !StartsWithUnderscore(s) && NoDouble(s)
  }

  /** A portable name starts with a letter, goes on with letters, digits and single underscores, and is not reserved. */
  lemma PortableExactly(s: string)
    ensures Portable(s) <==>
              && s != "" && ('a' <= s[0] <= 'z' || 'A' <= s[0] <= 'Z') && s !in KEYWORDS
              && (forall i :: 0 <= i < |s| ==> 'a' <= s[i] <= 'z' || 'A' <= s[i] <= 'Z' || '0' <= s[i] <= '9' || s[i] == '_')
              && (forall a, b :: s != a + "__" + b)
  {
    hide KEYWORDS;
    forall a, b | s == a + "__" + b ensures !NoDouble(s) {
      assert s[|a|] == (a + "__")[|a|] == '_' && s[|a| + 1] == (a + "__")[|a| + 1] == '_';
    }
    if i :| 0 <= i < |s| - 1 && s[i] == '_' && s[i + 1] == '_' {
      assert s == s[..i] + "__" + s[i + 2..];
    }
  }

  lemma NoDoubleConcat(a: string, b: string)
    requires NoDouble(a) && NoDouble(b) && !(EndsWithUnderscore(a) && StartsWithUnderscore(b))
    ensures NoDouble(a + b)
  {
    var s := a + b;
    forall i | 0 <= i < |s| - 1 ensures s[i] != '_' || s[i + 1] != '_' {
      if i < |a| - 1 { assert s[i] == a[i] && s[i + 1] == a[i + 1]; }
      else if i >= |a| { assert s[i] == b[i - |a|] && s[i + 1] == b[i + 1 - |a|]; }
    }
  }

  // ---------------------------------------------------------------- reserved words

  const MAX_KEYWORD_LENGTH := 16

  predicate KeywordShape(k: string) {
    0 < |k| <= MAX_KEYWORD_LENGTH && IsLetter(k[0]) && !EndsWithUnderscore(k) && NoDouble(k) && AllIdentifierChars(k)
  }

  const KEYWORDS_0: set<string> := {
    "alignas", "alignof", "and", "and_eq", "asm", "atomic_cancel", "atomic_commit"
  }

  const KEYWORDS_1: set<string> := {
    "atomic_noexcept", "auto", "bitand", "bitor", "bool", "break", "case"
  }

  const KEYWORDS_2: set<string> := {
    "catch", "char", "char8_t", "char16_t", "char32_t", "class", "compl"
  }

  const KEYWORDS_3: set<string> := {
    "concept", "const", "consteval", "constexpr", "constinit", "const_cast", "continue"
  }

  const KEYWORDS_4: set<string> := {
    "co_await", "co_return", "co_yield", "decltype", "default", "delete", "do"
  }

  const KEYWORDS_5: set<string> := {
    "double", "dynamic_cast", "else", "enum", "explicit", "export", "extern"
  }

  const KEYWORDS_6: set<string> := {
    "false", "float", "for", "friend", "goto", "if", "inline"
  }

  const KEYWORDS_7: set<string> := {
    "int", "long", "mutable", "namespace", "new", "noexcept", "not"
  }

  const KEYWORDS_8: set<string> := {
    "not_eq", "nullptr", "operator", "or", "or_eq", "private", "protected"
  }

  const KEYWORDS_9: set<string> := {
    "public", "reflexpr", "register", "reinterpret_cast", "requires", "return", "short"
  }

  const KEYWORDS_10: set<string> := {
    "signed", "sizeof", "static", "static_assert", "static_cast", "struct", "switch"
  }

  const KEYWORDS_11: set<string> := {
    "synchronized", "template", "this", "thread_local", "throw", "true", "try"
  }

  const KEYWORDS_12: set<string> := {
    "typedef", "typeid", "typename", "union", "unsigned", "using", "virtual"
  }

  const KEYWORDS_13: set<string> := {
    "void", "volatile", "wchar_t", "while", "xor", "xor_eq"
  }

  const KEYWORDS: set<string> :=
    KEYWORDS_0 + KEYWORDS_1 + KEYWORDS_2 + KEYWORDS_3 + KEYWORDS_4 + KEYWORDS_5 + KEYWORDS_6 +
    KEYWORDS_7 + KEYWORDS_8 + KEYWORDS_9 + KEYWORDS_10 + KEYWORDS_11 + KEYWORDS_12 + KEYWORDS_13

  lemma Shapes0()
    ensures forall k :: k in KEYWORDS_0 ==> KeywordShape(k)
  {
  }

  lemma Shapes1()
    ensures forall k :: k in KEYWORDS_1 ==> KeywordShape(k)
  {
  }

  lemma Shapes2()
    ensures forall k :: k in KEYWORDS_2 ==> KeywordShape(k)
  {
  }

  lemma Shapes3()
    ensures forall k :: k in KEYWORDS_3 ==> KeywordShape(k)
  {
  }

  lemma Shapes4()
    ensures forall k :: k in KEYWORDS_4 ==> KeywordShape(k)
  {
  }

  lemma Shapes5()
    ensures forall k :: k in KEYWORDS_5 ==> KeywordShape(k)
  {
  }

  lemma Shapes6()
    ensures forall k :: k in KEYWORDS_6 ==> KeywordShape(k)
  {
  }

  lemma Shapes7()
    ensures forall k :: k in KEYWORDS_7 ==> KeywordShape(k)
  {
  }

  lemma Shapes8()
    ensures forall k :: k in KEYWORDS_8 ==> KeywordShape(k)
  {
  }

  lemma Shapes9()
    ensures forall k :: k in KEYWORDS_9 ==> KeywordShape(k)
  {
  }

  lemma Shapes10()
    ensures forall k :: k in KEYWORDS_10 ==> KeywordShape(k)
  {
  }

  lemma Shapes11()
    ensures forall k :: k in KEYWORDS_11 ==> KeywordShape(k)
  {
  }

  lemma Shapes12()
    ensures forall k :: k in KEYWORDS_12 ==> KeywordShape(k)
  {
  }

  lemma Shapes13()
    ensures forall k :: k in KEYWORDS_13 ==> KeywordShape(k)
  {
  }

  /** No reserved word is long, ends in an underscore or has two in a row. */
  lemma KeywordShapes(k: string)
    requires k in KEYWORDS
    ensures KeywordShape(k)
  {
    hide KeywordShape;
    Shapes0();
    Shapes1();
    Shapes2();
    Shapes3();
    Shapes4();
    Shapes5();
    Shapes6();
    Shapes7();
    Shapes8();
    Shapes9();
    Shapes10();
    Shapes11();
    Shapes12();
    Shapes13();
  }

  lemma LongIsNoKeyword(s: string)
    requires |s| > MAX_KEYWORD_LENGTH
    ensures s !in KEYWORDS
  {
    if s in KEYWORDS { KeywordShapes(s); }
  }

  // ---------------------------------------------------------------- spelling a raw schema name

  const RESERVED_PREFIX := "protocyte_escaped_"

  /** What is needed of lower-case hexadecimal over UTF-8: injective, and letters or digits only. */
  ghost predicate IsHexEncoding(hex: string -> string) {
    && (forall a, b :: hex(a) == hex(b) ==> a == b)
    && (forall a, i :: 0 <= i < |hex(a)| ==> IsLetter(hex(a)[i]) || IsDigit(hex(a)[i]))
  }

  function EncodedIdentifier(hex: string -> string, name: string): string {
    RESERVED_PREFIX + hex(name)
  }

  predicate IsEscapedKeyword(name: string) {
    EndsWithUnderscore(name) && name[..|name| - 1] in KEYWORDS
  }

  /** cpp_identifier. */
  function CppIdentifier(hex: string -> string, name: string): string {
    if !IsIdentifier(name) then EncodedIdentifier(hex, name)
    else if name in KEYWORDS then name + "_"
    else if StartsWithUnderscore(name) || !NoDouble(name) || RESERVED_PREFIX <= name || IsEscapedKeyword(name) then
      EncodedIdentifier(hex, name)
    else name
  }

  lemma EncodedIsPortable(hex: string -> string, name: string)
    requires IsHexEncoding(hex)
    ensures Portable(EncodedIdentifier(hex, name)) && |EncodedIdentifier(hex, name)| > MAX_KEYWORD_LENGTH + 1
  {
    hide KEYWORDS;
    var e := EncodedIdentifier(hex, name);
    assert |RESERVED_PREFIX| == 18 && RESERVED_PREFIX[0] == 'p' && NoDouble(RESERVED_PREFIX) && AllIdentifierChars(RESERVED_PREFIX);
    NoDoubleConcat(RESERVED_PREFIX, hex(name));
    LongIsNoKeyword(e);
  }

  lemma EscapedKeywordIsPortable(k: string)
    requires k in KEYWORDS
    ensures Portable(k + "_") && |k + "_"| <= MAX_KEYWORD_LENGTH + 1
  {
    KeywordShapes(k);
    NoDoubleConcat(k, "_");
    if k + "_" in KEYWORDS {
      KeywordShapes(k + "_");
    }
  }

  /** Every raw schema name gets a portable spelling. */
  lemma CppIdentifierIsPortable(hex: string -> string, name: string)
    requires IsHexEncoding(hex)
    ensures Portable(CppIdentifier(hex, name))
  {
    hide KEYWORDS;
    EncodedIsPortable(hex, name);
    if name in KEYWORDS { EscapedKeywordIsPortable(name); }
  }

  /** Different raw schema names get different spellings. */
  lemma CppIdentifierIsInjective(hex: string -> string, a: string, b: string)
    requires IsHexEncoding(hex) && CppIdentifier(hex, a) == CppIdentifier(hex, b)
    ensures a == b
  {
    hide KEYWORDS, NoDouble, IsIdentifier;
    EncodedIsPortable(hex, a);
    EncodedIsPortable(hex, b);
    assert RESERVED_PREFIX <= EncodedIdentifier(hex, a) && RESERVED_PREFIX <= EncodedIdentifier(hex, b);
    assert EncodedIdentifier(hex, a)[|RESERVED_PREFIX|..] == hex(a) && EncodedIdentifier(hex, b)[|RESERVED_PREFIX|..] == hex(b);
    if a in KEYWORDS { EscapedKeywordIsPortable(a); assert (a + "_")[..|a|] == a; }
    if b in KEYWORDS { EscapedKeywordIsPortable(b); assert (b + "_")[..|b|] == b; }
  }

  /** A portable name is left as it is, unless its spelling is one that another name is given. */
  lemma CppIdentifierKeeps(hex: string -> string, name: string)
    requires IsHexEncoding(hex)
    ensures Portable(name) && (forall k :: k in KEYWORDS ==> name != k + "_") && !(RESERVED_PREFIX <= name) <==>
              CppIdentifier(hex, name) == name && !(RESERVED_PREFIX <= name)
    ensures CppIdentifier(hex, name) != name ==> CppIdentifier(hex, name) in {name + "_", RESERVED_PREFIX + hex(name)}
    ensures name in KEYWORDS ==> CppIdentifier(hex, name) == name + "_"
  {
    hide KEYWORDS, NoDouble;
    EncodedIsPortable(hex, name);
    if name in KEYWORDS { KeywordShapes(name); }
    assert IsEscapedKeyword(name) ==> name == name[..|name| - 1] + "_";
    forall k | k in KEYWORDS && name == k + "_" ensures IsEscapedKeyword(name) { assert name[..|name| - 1] == k; }
  }
}
