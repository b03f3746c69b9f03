/** Requests for emitted names, the endless list of candidate stems, and what a scope must keep. */
module NameModel {
  import opened Options
  import opened Identifiers

  /** A derived name: the stem inside a template, or the stem with an underscore-joined suffix. */
  datatype Member = Templated(before: string, after: string, kind: nat, signature: Option<string>)
                  | Suffixed(suffix: string, kind: nat, signature: Option<string>)

  datatype Request = Request(owner: string, preferred: string, members: seq<Member>, hashFallback: bool, priority: int)

  datatype Use = Use(owner: string, kind: nat, signature: Option<string>)

  function Render(m: Member, stem: string): string {
    match m
    case Templated(before, after, _, _) => before + stem + after
    case Suffixed(suffix, _, _) =>
      if EndsWithUnderscore(stem) then stem + suffix + "_" else stem + "_" + suffix
  }

  function UseOf(r: Request, m: Member): Use { Use(r.owner, m.kind, m.signature) }

  /** The names a request would record for a stem, in member order. */
  function Rendered(r: Request, stem: string): seq<(string, Use)> {
    seq(|r.members|, i requires 0 <= i < |r.members| => (Render(r.members[i], stem), UseOf(r, r.members[i])))
  }

  // ---------------------------------------------------------------- candidates

  function Decimal(n: nat): string {
    if n < 10 then [('0' as int + n) as char] else Decimal(n / 10) + [('0' as int + n % 10) as char]
  }

  lemma {:induction false} DecimalInjective(a: nat, b: nat)
    requires Decimal(a) == Decimal(b)
    ensures a == b
  {
    if a >= 10 && b >= 10 {
      var x, y := Decimal(a), Decimal(b);
      assert x[..|x| - 1] == Decimal(a / 10) && y[..|y| - 1] == Decimal(b / 10);
      assert x[|x| - 1] == y[|y| - 1];
      DecimalInjective(a / 10, b / 10);
    } else if a >= 10 {
      DecimalNonEmpty(a / 10);
    } else if b >= 10 {
      DecimalNonEmpty(b / 10);
    }
  }

  lemma {:induction false} DecimalNonEmpty(n: nat)
    ensures Decimal(n) != "" && forall i :: 0 <= i < |Decimal(n)| ==> IsDigit(Decimal(n)[i])
  {
    if n >= 10 { DecimalNonEmpty(n / 10); }
  }

  /** The number a string of digits stands for. */
  function ReadDecimal(s: string): int {
    if s == "" then 0 else 10 * ReadDecimal(s[..|s| - 1]) + (s[|s| - 1] as int - '0' as int)
  }

  /** A number is spelled with its decimal digits and no leading zero. */
  lemma {:induction false} DecimalReads(n: nat)
    ensures ReadDecimal(Decimal(n)) == n && (n > 0 ==> Decimal(n)[..1] != "0")
  {
    if n >= 10 {
      DecimalReads(n / 10);
      DecimalNonEmpty(n / 10);
      assert Decimal(n)[..|Decimal(n)| - 1] == Decimal(n / 10);
      assert Decimal(n)[..1] == Decimal(n / 10)[..1];
    } else {
      assert Decimal(n)[..0] == "";
    }
  }

  function WithoutTrailingUnderscores(s: string): string {
    if EndsWithUnderscore(s) then WithoutTrailingUnderscores(s[..|s| - 1]) else s
  }

  function Base(preferred: string): string {
    var stripped := WithoutTrailingUnderscores(preferred);
    if stripped == "" then "protocyte_name" else stripped
  }

  /** `digest` is the hashed owner, twelve hexadecimal characters. */
  function Hashed(preferred: string, digest: string): string {
    Base(preferred) + "_protocyte_" + digest
  }

  function Numbered(preferred: string, digest: string, n: nat): string {
    Hashed(preferred, digest) + "_" + Decimal(n)
  }

  /** The k-th stem _allocation_candidates yields. */
  function Candidate(r: Request, digest: string, k: nat): string {
    if k == 0 then r.preferred
    else if r.hashFallback then
      if k == 1 then Hashed(r.preferred, digest) else Numbered(r.preferred, digest, k)
    else if k == 1 then
      if EndsWithUnderscore(r.preferred) then r.preferred + "protocyte" else r.preferred + "_"
    else if k == 2 then Hashed(r.preferred, digest)
    else Numbered(r.preferred, digest, k - 1)
  }

  // ---------------------------------------------------------------- what a scope keeps

  /** Two uses may share a spelling only as overloads with different signatures. */
  predicate Overloads(a: Use, b: Use) {
    a.signature.Some? && b.signature.Some? && a.signature != b.signature
  }

  predicate Sharable(uses: seq<Use>) {
    forall i, j :: 0 <= i < j < |uses| ==> Overloads(uses[i], uses[j])
  }

  /** Every recorded name is portable, and every shared spelling is shared by overloads. */
  ghost predicate WellNamed(uses: map<string, seq<Use>>) {
    forall name :: name in uses ==> Portable(name) && Sharable(uses[name])
  }

  function Known(uses: map<string, seq<Use>>, name: string): seq<Use> {
    if name in uses then uses[name] else []
  }

  predicate CanAdd(existing: seq<Use>, name: string, use: Use) {
    Portable(name) && (existing == [] ||
                       (use.signature.Some? && forall i :: 0 <= i < |existing| ==> Overloads(existing[i], use)))
  }

  function Add(uses: map<string, seq<Use>>, name: string, use: Use): map<string, seq<Use>> {
    uses[name := Known(uses, name) + [use]]
  }

  function AddAll(uses: map<string, seq<Use>>, names: seq<(string, Use)>): map<string, seq<Use>> {
    if names == [] then uses
    else Add(AddAll(uses, names[..|names| - 1]), names[|names| - 1].0, names[|names| - 1].1)
  }

  /** Every name can be added after the ones before it. */
  ghost predicate AllAddable(uses: map<string, seq<Use>>, names: seq<(string, Use)>) {
    forall i :: 0 <= i < |names| ==> CanAdd(Known(AddAll(uses, names[..i]), names[i].0), names[i].0, names[i].1)
  }

  /** A name can be added exactly when the scope is still well named with it. */
  lemma CanAddExactly(uses: map<string, seq<Use>>, name: string, use: Use)
    requires WellNamed(uses)
    ensures CanAdd(Known(uses, name), name, use) <==> WellNamed(uses[name := Known(uses, name) + [use]])
    ensures CanAdd(Known(uses, name), name, use) <==>
              && Portable(name)
              && (name in uses && uses[name] != [] ==> use.signature.Some?)
              && (name in uses ==> forall other :: other in uses[name] ==> other.signature.Some? && other.signature != use.signature)
  {
    hide Portable;
    var existing := Known(uses, name);
    var after := uses[name := existing + [use]];
    if WellNamed(after) {
      assert Sharable(existing + [use]) && Portable(name) by { assert name in after; }
      forall i | 0 <= i < |existing| ensures Overloads(existing[i], use) {
        assert Overloads((existing + [use])[i], (existing + [use])[|existing|]);
      }
      assert existing != [] ==> Overloads(existing[0], use);
    }
  }

  lemma AddKeepsWellNamed(uses: map<string, seq<Use>>, name: string, use: Use)
    requires WellNamed(uses) && CanAdd(Known(uses, name), name, use)
    ensures WellNamed(Add(uses, name, use))
  {
    CanAddExactly(uses, name, use);
  }

  lemma AddablePrefix(uses: map<string, seq<Use>>, names: seq<(string, Use)>, n: nat)
    requires AllAddable(uses, names) && n <= |names|
    ensures AllAddable(uses, names[..n])
  {
    hide CanAdd;
    var init := names[..n];
    forall i | 0 <= i < |init| ensures CanAdd(Known(AddAll(uses, init[..i]), init[i].0), init[i].0, init[i].1) {
      assert init[..i] == names[..i];
    }
  }

  lemma {:induction false} AddAllKeepsWellNamed(uses: map<string, seq<Use>>, names: seq<(string, Use)>)
    requires WellNamed(uses) && AllAddable(uses, names)
    ensures WellNamed(AddAll(uses, names))
  {
    if names != [] {
      var n := |names| - 1;
      AddablePrefix(uses, names, n);
      hide WellNamed, CanAdd;
      AddAllKeepsWellNamed(uses, names[..n]);
      AddKeepsWellNamed(AddAll(uses, names[..n]), names[n].0, names[n].1);
    }
  }

  /** The uses of a name after adding are those before, then those staged, in order. */
  lemma {:induction false} AddAllSplit(uses: map<string, seq<Use>>, names: seq<(string, Use)>, name: string)
    ensures Known(AddAll(uses, names), name) == Known(uses, name) + Known(AddAll(map[], names), name)
  {
    if names != [] { AddAllSplit(uses, names[..|names| - 1], name); }
  }

  /** Recording a group records every name in it. */
  lemma {:induction false} AddAllRecords(uses: map<string, seq<Use>>, names: seq<(string, Use)>, i: nat)
    requires i < |names|
    ensures names[i].1 in Known(AddAll(uses, names), names[i].0)
  {
    var n := |names| - 1;
    if i < n { AddAllRecords(uses, names[..n], i); }
  }

  /** An allocated request is recorded, name by name, as a use by its owner with the kind and signature of the member. */
  lemma UsesRecorded(uses: map<string, seq<Use>>, r: Request, stem: string, i: nat)
    requires i < |r.members|
    ensures var m := r.members[i]; Use(r.owner, m.kind, m.signature) in Known(AddAll(uses, Rendered(r, stem)), Render(m, stem))
    ensures |Rendered(r, stem)| == |r.members|
  {
    AddAllRecords(uses, Rendered(r, stem), i);
  }

  lemma {:induction false} StagedComeFromNames(names: seq<(string, Use)>, name: string, k: nat)
    requires k < |Known(AddAll(map[], names), name)|
    ensures exists i :: 0 <= i < |names| && names[i] == (name, Known(AddAll(map[], names), name)[k])
  {
    if names != [] {
      var n := |names| - 1;
      if k < |Known(AddAll(map[], names[..n]), name)| {
        StagedComeFromNames(names[..n], name, k);
        var i :| 0 <= i < n && names[..n][i] == (name, Known(AddAll(map[], names[..n]), name)[k]);
        assert names[i] == (name, Known(AddAll(map[], names), name)[k]);
      } else {
        assert names[n] == (name, Known(AddAll(map[], names), name)[k]);
      }
    }
  }

  // ---------------------------------------------------------------- when numbered candidates work

  ghost predicate HexDigest(digest: string) {
    |digest| == 12 && forall i :: 0 <= i < |digest| ==> IsLetter(digest[i]) || IsDigit(digest[i])
  }

  /** A member that keeps a stem portable when the stem starts with a letter and ends with a digit. */
  predicate PortableMember(m: Member) {
    match m
    case Templated(before, after, _, _) =>
      && AllIdentifierChars(before) && AllIdentifierChars(after) && NoDouble(before) && NoDouble(after)
      && (before != "" ==> IsLetter(before[0]))
    case Suffixed(suffix, _, _) => AllIdentifierChars(suffix) && NoDouble(suffix) && !StartsWithUnderscore(suffix)
  }

  /** Members rendered on one stem do not stand in each other's way. */
  ghost predicate CompatibleOn(r: Request, stem: string) {
    forall i, j :: 0 <= i < j < |r.members| && Render(r.members[i], stem) == Render(r.members[j], stem) ==>
      Overloads(UseOf(r, r.members[i]), UseOf(r, r.members[j]))
  }

  ghost predicate Satisfiable(r: Request, digest: string) {
    && Portable(r.preferred) && HexDigest(digest)
    && (forall i :: 0 <= i < |r.members| ==> PortableMember(r.members[i]))
    && (forall n: nat :: n >= 2 ==> CompatibleOn(r, Numbered(r.preferred, digest, n)))
  }

  lemma {:induction false} StrippedPortable(s: string)
    requires Portable(s)
    ensures var t := WithoutTrailingUnderscores(s);
            t != "" && IsLetter(t[0]) && !EndsWithUnderscore(t) && NoDouble(t) && AllIdentifierChars(t)
  {
    hide KEYWORDS;
    if EndsWithUnderscore(s) {
      var t := s[..|s| - 1];
      assert s[|s| - 2] != '_';
      assert !EndsWithUnderscore(t);
    }
  }

  /** A numbered stem starts with a letter, ends with a digit, is long, and has no double underscore. */
  lemma NumberedShape(preferred: string, digest: string, n: nat)
    requires Portable(preferred) && HexDigest(digest)
    ensures var s := Numbered(preferred, digest, n);
            |s| > MAX_KEYWORD_LENGTH && IsLetter(s[0]) && IsDigit(s[|s| - 1]) && NoDouble(s) && AllIdentifierChars(s)
  {
    hide KEYWORDS;
    StrippedPortable(preferred);
    hide Portable;
    var base := Base(preferred);
    DecimalNonEmpty(n);
    assert NoDouble("_protocyte_") && AllIdentifierChars("_protocyte_");
    NoDoubleConcat(base, "_protocyte_");
    NoDoubleConcat(base + "_protocyte_", digest);
    NoDoubleConcat(Hashed(preferred, digest), "_");
    NoDoubleConcat(Hashed(preferred, digest) + "_", Decimal(n));
  }

  lemma NumberedInjective(preferred: string, digest: string, a: nat, b: nat)
    requires Numbered(preferred, digest, a) == Numbered(preferred, digest, b)
    ensures a == b
  {
    var h := Hashed(preferred, digest) + "_";
    assert Numbered(preferred, digest, a)[|h|..] == Decimal(a) && Numbered(preferred, digest, b)[|h|..] == Decimal(b);
    DecimalInjective(a, b);
  }

  lemma RenderedPortable(m: Member, s: string)
    requires PortableMember(m) && |s| > MAX_KEYWORD_LENGTH && IsLetter(s[0]) && IsDigit(s[|s| - 1]) && NoDouble(s) && AllIdentifierChars(s)
    ensures Portable(Render(m, s))
  {
    hide KEYWORDS;
    LongIsNoKeyword(Render(m, s));
    match m
    case Templated(before, after, _, _) =>
      NoDoubleConcat(before, s);
      NoDoubleConcat(before + s, after);
    case Suffixed(suffix, _, _) =>
      NoDoubleConcat(s, "_");
      NoDoubleConcat(s + "_", suffix);
  }

  /** A member's rendering determines the stem. */
  lemma RenderInjective(m: Member, s: string, t: string)
    requires s != "" && t != "" && IsDigit(s[|s| - 1]) && IsDigit(t[|t| - 1]) && Render(m, s) == Render(m, t)
    ensures s == t
  {
    match m
    case Templated(before, after, _, _) =>
      var x := before + s + after;
      assert |s| == |t|;
      assert x[|before|..|before| + |s|] == s && (before + t + after)[|before|..|before| + |t|] == t;
    case Suffixed(suffix, _, _) =>
      assert |s| == |t|;
      assert (s + "_" + suffix)[..|s|] == s && (t + "_" + suffix)[..|t|] == t;
  }

  /** A derived name is its stem, one underscore and the suffix, and tells its stem from every other. */
  lemma SuffixedNames(m: Member, s: string, t: string)
    requires m.Suffixed? && m.suffix != "" && !StartsWithUnderscore(m.suffix) && !EndsWithUnderscore(m.suffix)
    requires s != "" && NoDouble(s) && NoDouble(m.suffix)
    ensures var x := Render(m, s); var j := if EndsWithUnderscore(s) then |s| - 1 else |s|;
            s <= x && j < |x| && x[j] == '_' && m.suffix <= x[j + 1..] && NoDouble(x)
    ensures Render(m, s) == Render(m, t) ==> s == t
  {
    var x, y := Render(m, s), Render(m, t);
    if EndsWithUnderscore(s) {
      NoDoubleConcat(s, m.suffix);
      NoDoubleConcat(s + m.suffix, "_");
      assert x[|s|..] == m.suffix + "_";
    } else {
      NoDoubleConcat(s, "_");
      NoDoubleConcat(s + "_", m.suffix);
      assert x[|s| + 1..] == m.suffix;
    }
    if x == y {
      assert EndsWithUnderscore(x) <==> EndsWithUnderscore(s);
      assert EndsWithUnderscore(y) <==> EndsWithUnderscore(t);
      assert |s| == |t| && x[..|s|] == s && y[..|t|] == t;
    }
  }

  /** A numbered stem none of whose names is in use fits. */
  lemma FreshStemFits(uses: map<string, seq<Use>>, r: Request, digest: string, n: nat)
    requires Satisfiable(r, digest) && n >= 2
    requires forall i :: 0 <= i < |r.members| ==> Render(r.members[i], Numbered(r.preferred, digest, n)) !in uses
    ensures AllAddable(uses, Rendered(r, Numbered(r.preferred, digest, n)))
  {
    var stem := Numbered(r.preferred, digest, n);
    var names := Rendered(r, stem);
    NumberedShape(r.preferred, digest, n);
    assert CompatibleOn(r, stem);
    hide Satisfiable, Numbered, Portable;
    forall i | 0 <= i < |names| ensures CanAdd(Known(AddAll(uses, names[..i]), names[i].0), names[i].0, names[i].1) {
      RenderedPortable(r.members[i], stem);
      AddAllSplit(uses, names[..i], names[i].0);
      assert Known(uses, names[i].0) == [];
      OnlyOverloadsBefore(r, stem, i);
    }
  }

  lemma OnlyOverloadsBefore(r: Request, stem: string, i: nat)
    requires i < |r.members| && CompatibleOn(r, stem)
    ensures var names := Rendered(r, stem);
            var staged := Known(AddAll(map[], names[..i]), names[i].0);
            forall k :: 0 <= k < |staged| ==> Overloads(staged[k], names[i].1)
    ensures var names := Rendered(r, stem);
            Known(AddAll(map[], names[..i]), names[i].0) != [] ==> names[i].1.signature.Some?
  {
    var names := Rendered(r, stem);
    var staged := Known(AddAll(map[], names[..i]), names[i].0);
    forall k | 0 <= k < |staged| ensures Overloads(staged[k], names[i].1) {
      StagedComeFromNames(names[..i], names[i].0, k);
      var j :| 0 <= j < i && names[..i][j] == (names[i].0, staged[k]);
      assert names[j] == (names[i].0, staged[k]);
      assert Render(r.members[j], stem) == Render(r.members[i], stem);
    }
    if staged != [] { assert Overloads(staged[0], names[i].1); }
  }
}
