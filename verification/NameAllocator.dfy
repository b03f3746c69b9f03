/** The scope that reserves and allocates emitted names. */
module NameAllocator {
  import opened Options
  import opened CodePoints
  import opened Identifiers
  import opened NameModel

  // ---------------------------------------------------------------- the order of requests

  /** The sort key (priority, preferred, owner). */
  predicate Before(a: Request, b: Request) {
    a.priority < b.priority ||
    (a.priority == b.priority &&
     (Less(a.preferred, b.preferred) || (a.preferred == b.preferred && Less(a.owner, b.owner))))
  }

  lemma BeforeTotal(a: Request, b: Request)
    requires a.owner != b.owner
    ensures Before(a, b) || Before(b, a)
  {
    LessTotal(a.preferred, b.preferred);
    LessTotal(a.owner, b.owner);
  }

  lemma BeforeTransitive(a: Request, b: Request, c: Request)
    requires Before(a, b) && Before(b, c)
    ensures Before(a, c)
  {
    if Less(a.preferred, b.preferred) && Less(b.preferred, c.preferred) { LessTransitive(a.preferred, b.preferred, c.preferred); }
    if Less(a.owner, b.owner) && Less(b.owner, c.owner) { LessTransitive(a.owner, b.owner, c.owner); }
  }

  lemma BeforeAsymmetric(a: Request, b: Request)
    ensures !(Before(a, b) && Before(b, a))
  {
    LessTotal(a.preferred, b.preferred);
    LessTotal(a.owner, b.owner);
  }

  ghost predicate DistinctOwners(rs: seq<Request>) {
    forall i, j :: 0 <= i < j < |rs| ==> rs[i].owner != rs[j].owner
  }

  ghost predicate InOrder(rs: seq<Request>) {
    forall i, j :: 0 <= i < j < |rs| ==> Before(rs[i], rs[j])
  }

  function Insert(r: Request, rs: seq<Request>): seq<Request> {
    if rs == [] then [r] else if Before(rs[0], r) then [rs[0]] + Insert(r, rs[1..]) else [r] + rs
  }

  /** sorted(requests, key=...). */
  function SortRequests(rs: seq<Request>): seq<Request> {
    if rs == [] then [] else Insert(rs[0], SortRequests(rs[1..]))
  }

  lemma {:induction false} InsertKeeps(r: Request, rs: seq<Request>)
    ensures multiset(Insert(r, rs)) == multiset(rs) + multiset{r}
  {
    if rs != [] {
      assert rs == [rs[0]] + rs[1..];
      if Before(rs[0], r) { InsertKeeps(r, rs[1..]); }
    }
  }

  lemma {:induction false} InsertInOrder(r: Request, rs: seq<Request>)
    requires InOrder(rs) && forall i :: 0 <= i < |rs| ==> rs[i].owner != r.owner
    ensures InOrder(Insert(r, rs))
  {
    var out := Insert(r, rs);
    if rs != [] {
      if Before(rs[0], r) {
        InsertInOrder(r, rs[1..]);
        InsertKeeps(r, rs[1..]);
        forall j | 0 < j < |out| ensures Before(out[0], out[j]) {
          assert out[j] in multiset(Insert(r, rs[1..]));
          if out[j] != r {
            assert out[j] in rs[1..];
          }
        }
      } else {
        BeforeTotal(rs[0], r);
        forall j | 0 < j < |out| ensures Before(out[0], out[j]) {
          if j > 1 { BeforeTransitive(r, rs[0], out[j]); }
        }
      }
    }
  }

  lemma {:induction false} SortKeeps(rs: seq<Request>)
    ensures multiset(SortRequests(rs)) == multiset(rs)
  {
    if rs != [] {
      SortKeeps(rs[1..]);
      InsertKeeps(rs[0], SortRequests(rs[1..]));
      assert rs == [rs[0]] + rs[1..];
    }
  }

  lemma {:induction false} SortInOrder(rs: seq<Request>)
    requires DistinctOwners(rs)
    ensures InOrder(SortRequests(rs))
  {
    if rs != [] {
      var rest := SortRequests(rs[1..]);
      SortInOrder(rs[1..]);
      SortKeeps(rs[1..]);
      forall i | 0 <= i < |rest| ensures rest[i].owner != rs[0].owner {
        assert rest[i] in multiset(rest);
        assert rest[i] in rs[1..];
      }
      InsertInOrder(rs[0], rest);
    }
  }

  /** Requests are sorted by priority, then by the preferred name, then by the owner. */
  lemma SortedByKey(rs: seq<Request>, i: nat, j: nat)
    requires DistinctOwners(rs) && i < j < |SortRequests(rs)|
    ensures var (a, b) := (SortRequests(rs)[i], SortRequests(rs)[j]);
            && a.priority <= b.priority
            && (a.priority == b.priority ==> a.preferred == b.preferred || Less(a.preferred, b.preferred))
            && (a.priority == b.priority && a.preferred == b.preferred ==> Less(a.owner, b.owner))
  {
    SortInOrder(rs);
    LessTotal(SortRequests(rs)[i].preferred, SortRequests(rs)[i].preferred);
    hide SortRequests, Less;
  }

  lemma SameFirst(a: seq<Request>, b: seq<Request>)
    requires InOrder(a) && InOrder(b) && multiset(a) == multiset(b) && a != []
    ensures b != [] && a[0] == b[0]
  {
    hide Before;
    assert a[0] in multiset(b);
    assert b[0] in multiset(a);
    var i :| 0 <= i < |b| && b[i] == a[0];
    var j :| 0 <= j < |a| && a[j] == b[0];
    BeforeAsymmetric(a[0], b[0]);
  }

  lemma SameRest(a: seq<Request>, b: seq<Request>)
    requires a != [] && b != [] && a[0] == b[0] && multiset(a) == multiset(b)
    ensures multiset(a[1..]) == multiset(b[1..])
  {
    assert a == [a[0]] + a[1..] && b == [b[0]] + b[1..];
    assert multiset(a[1..]) == multiset(a) - multiset{a[0]};
    assert multiset(b[1..]) == multiset(b) - multiset{b[0]};
  }

  lemma RestInOrder(a: seq<Request>)
    requires InOrder(a) && a != []
    ensures InOrder(a[1..])
  {
    hide Before;
  }

  lemma {:induction false} OrderedUnique(a: seq<Request>, b: seq<Request>)
    requires InOrder(a) && InOrder(b) && multiset(a) == multiset(b)
    ensures a == b
  {
    hide InOrder, Before;
    if a != [] {
      SameFirst(a, b);
      SameRest(a, b);
      RestInOrder(a);
      RestInOrder(b);
      OrderedUnique(a[1..], b[1..]);
      assert a == [a[0]] + a[1..] && b == [b[0]] + b[1..];
    } else {
      assert |multiset(a)| == 0 && |multiset(b)| == |b|;
    }
  }

  /** Any order of the same requests is sorted to the same sequence. */
  lemma SortIgnoresOrder(a: seq<Request>, b: seq<Request>)
    requires DistinctOwners(a) && DistinctOwners(b) && multiset(a) == multiset(b)
    ensures SortRequests(a) == SortRequests(b)
  {
    SortInOrder(a);
    SortInOrder(b);
    SortKeeps(a);
    SortKeeps(b);
    OrderedUnique(SortRequests(a), SortRequests(b));
  }

  // ---------------------------------------------------------------- what allocation yields

  /** `k` is the first candidate whose names all fit. */
  ghost predicate FirstFit(uses: map<string, seq<Use>>, r: Request, digest: string, k: nat) {
    && AllAddable(uses, Rendered(r, Candidate(r, digest, k)))
    && forall j: nat :: j < k ==> !AllAddable(uses, Rendered(r, Candidate(r, digest, j)))
  }

  /** Allocating `rs` one after the other from `uses` ends in `final`, giving each owner its stem. */
  ghost predicate Outcome(uses: map<string, seq<Use>>, rs: seq<Request>, digests: string -> string,
                          final: map<string, seq<Use>>, stems: map<string, string>)
  {
    if rs == [] then final == uses && stems == map[]
    else
      var r, init := rs[|rs| - 1], rs[..|rs| - 1];
      exists mid, got, k: nat ::
        Outcome(uses, init, digests, mid, got) && FirstFit(mid, r, digests(r.owner), k) &&
        final == AddAll(mid, Rendered(r, Candidate(r, digests(r.owner), k))) &&
        stems == got[r.owner := Candidate(r, digests(r.owner), k)]
  }

  lemma {:induction false} OutcomeUnique(uses: map<string, seq<Use>>, rs: seq<Request>, digests: string -> string,
                                         f1: map<string, seq<Use>>, a1: map<string, string>,
                                         f2: map<string, seq<Use>>, a2: map<string, string>)
    requires Outcome(uses, rs, digests, f1, a1) && Outcome(uses, rs, digests, f2, a2)
    ensures f1 == f2 && a1 == a2
  {
    if rs != [] {
      var r, init := rs[|rs| - 1], rs[..|rs| - 1];
      var m1, g1, k1: nat :| Outcome(uses, init, digests, m1, g1) && FirstFit(m1, r, digests(r.owner), k1) &&
        f1 == AddAll(m1, Rendered(r, Candidate(r, digests(r.owner), k1))) &&
        a1 == g1[r.owner := Candidate(r, digests(r.owner), k1)];
      var m2, g2, k2: nat :| Outcome(uses, init, digests, m2, g2) && FirstFit(m2, r, digests(r.owner), k2) &&
        f2 == AddAll(m2, Rendered(r, Candidate(r, digests(r.owner), k2))) &&
        a2 == g2[r.owner := Candidate(r, digests(r.owner), k2)];
      OutcomeUnique(uses, init, digests, m1, g1, m2, g2);
      assert k1 == k2;
    }
  }

  /** Allocation does not depend on the order in which the requests are given. */
  lemma AllocationIgnoresOrder(uses: map<string, seq<Use>>, a: seq<Request>, b: seq<Request>, digests: string -> string,
                               f1: map<string, seq<Use>>, a1: map<string, string>,
                               f2: map<string, seq<Use>>, a2: map<string, string>)
    requires DistinctOwners(a) && DistinctOwners(b) && multiset(a) == multiset(b)
    requires Outcome(uses, SortRequests(a), digests, f1, a1) && Outcome(uses, SortRequests(b), digests, f2, a2)
    ensures f1 == f2 && a1 == a2
  {
    SortIgnoresOrder(a, b);
    OutcomeUnique(uses, SortRequests(a), digests, f1, a1, f2, a2);
  }

  /** Every name the request derives from `stem` can be recorded. */
  ghost predicate Room(uses: map<string, seq<Use>>, r: Request, stem: string) { AllAddable(uses, Rendered(r, stem)) }

  /** `t` is `s` without the underscores it ends in. */
  ghost predicate Trimmed(s: string, t: string) {
    t <= s && (forall i :: |t| <= i < |s| ==> s[i] == '_') && (t != "" ==> t[|t| - 1] != '_')
  }

  /** The first stem with room: the preferred name, without the fallback its slightly longer form, the name with the
      digest, and then that name with the least number from two on. */
  ghost predicate FirstStem(uses: map<string, seq<Use>>, r: Request, digest: string, base: string, stem: string) {
    var longer := r.preferred + (if r.preferred != "" && r.preferred[|r.preferred| - 1] == '_' then "protocyte" else "_");
    var hashed := (if base == "" then "protocyte_name" else base) + "_protocyte_" + digest;
    if Room(uses, r, r.preferred) then stem == r.preferred
    else if !r.hashFallback && Room(uses, r, longer) then stem == longer
    else if Room(uses, r, hashed) then stem == hashed
    else exists n: nat :: n >= 2 && stem == hashed + "_" + Decimal(n) && Room(uses, r, stem)
                          && forall m: nat :: 2 <= m < n ==> !Room(uses, r, hashed + "_" + Decimal(m))
  }

  lemma {:induction false} TrimmedIs(s: string)
    ensures Trimmed(s, WithoutTrailingUnderscores(s))
  {
    if EndsWithUnderscore(s) { TrimmedIs(s[..|s| - 1]); }
  }

  lemma TrimmedOnce(s: string, a: string, b: string)
    requires Trimmed(s, a) && Trimmed(s, b)
    ensures a == b
  {
    assert forall i :: 0 <= i < |a| ==> a[i] == s[i];
    assert forall i :: 0 <= i < |b| ==> b[i] == s[i];
  }

  lemma FirstFitIs(uses: map<string, seq<Use>>, r: Request, digest: string, k: nat)
    requires FirstFit(uses, r, digest, k)
    ensures exists base :: Trimmed(r.preferred, base) && FirstStem(uses, r, digest, base, Candidate(r, digest, k))
  {
    var base := WithoutTrailingUnderscores(r.preferred);
    TrimmedIs(r.preferred);
    hide AllAddable, Rendered, Decimal, Trimmed;
    forall j: nat | j < k ensures !Room(uses, r, Candidate(r, digest, j)) {}
    assert Room(uses, r, Candidate(r, digest, k));
    assert k > 0 ==> !Room(uses, r, Candidate(r, digest, 0));
    assert k > 1 ==> !Room(uses, r, Candidate(r, digest, 1));
    assert k > 2 ==> !Room(uses, r, Candidate(r, digest, 2));
    if k >= FirstNumbered(r) {
      NumberedFits(uses, r, digest, k);
      NumberedStem(uses, r, digest, k + 2 - FirstNumbered(r));
    } else {
      hide Room, WithoutTrailingUnderscores;
      assert FirstStem(uses, r, digest, base, Candidate(r, digest, k));
    }
  }

  lemma NumberedFits(uses: map<string, seq<Use>>, r: Request, digest: string, k: nat)
    requires FirstFit(uses, r, digest, k) && k >= FirstNumbered(r)
    ensures Candidate(r, digest, k) == Numbered(r.preferred, digest, k + 2 - FirstNumbered(r))
    ensures Room(uses, r, Candidate(r, digest, k))
    ensures forall m: nat :: 2 <= m < k + 2 - FirstNumbered(r) ==> !Room(uses, r, Numbered(r.preferred, digest, m))
  {
    hide AllAddable, Rendered, Candidate, Numbered;
    CandidateNumbered(r, digest, k);
    forall m: nat | 2 <= m < k + 2 - FirstNumbered(r) ensures !Room(uses, r, Numbered(r.preferred, digest, m)) {
      CandidateNumbered(r, digest, m - 2 + FirstNumbered(r));
    }
  }

  lemma NumberedStem(uses: map<string, seq<Use>>, r: Request, digest: string, n: nat)
    requires !Room(uses, r, r.preferred) && !Room(uses, r, Hashed(r.preferred, digest))
    requires !r.hashFallback ==> !Room(uses, r, Candidate(r, digest, 1))
    requires n >= 2 && Room(uses, r, Numbered(r.preferred, digest, n))
    requires forall m: nat :: 2 <= m < n ==> !Room(uses, r, Numbered(r.preferred, digest, m))
    ensures FirstStem(uses, r, digest, WithoutTrailingUnderscores(r.preferred), Numbered(r.preferred, digest, n))
  {
    hide Room, Decimal, WithoutTrailingUnderscores;
    forall m: nat ensures Numbered(r.preferred, digest, m) == Hashed(r.preferred, digest) + "_" + Decimal(m) {}
  }

  // ---------------------------------------------------------------- why the search ends

  /** The pairs of a member and a used name, of which each failing numbered candidate uses up a new one. */
  function Pairs(members: nat, names: set<string>): set<(nat, string)> {
    if members == 0 then {} else Pairs(members - 1, names) + Slice(members - 1, names)
  }

  function Slice(i: nat, names: set<string>): set<(nat, string)> {
    set name | name in names :: (i, name)
  }

  lemma {:induction false} PairsAre(members: nat, names: set<string>)
    ensures forall i: nat, name :: (i, name) in Pairs(members, names) <==> i < members && name in names
  {
    if members > 0 { PairsAre(members - 1, names); }
  }

  lemma PairsSplit(members: nat, names: set<string>)
    requires members > 0
    ensures Pairs(members - 1, names) !! Slice(members - 1, names)
  {
    PairsAre(members - 1, names);
    hide Pairs;
  }

  lemma {:induction false} PairsSize(members: nat, names: set<string>)
    ensures |Pairs(members, names)| == members * |names|
  {
    hide Slice;
    if members > 0 {
      PairsSize(members - 1, names);
      PairsSplit(members, names);
      SliceSize(members - 1, names);
      assert Pairs(members, names) == Pairs(members - 1, names) + Slice(members - 1, names);
      hide *;
      DisjointSizes(Pairs(members - 1, names), Slice(members - 1, names));
      OneMore(members - 1, |names|);
    }
  }

  lemma DisjointSizes<T>(a: set<T>, b: set<T>)
    requires a !! b
    ensures |a + b| == |a| + |b|
  {
  }

  lemma OneMore(a: nat, b: nat)
    ensures a * b + b == (a + 1) * b
  {
  }

  lemma {:induction false} SliceSize(i: nat, names: set<string>)
    ensures |Slice(i, names)| == |names|
  {
    if names != {} {
      var n :| n in names;
      assert Slice(i, names) == Slice(i, names - {n}) + {(i, n)};
      SliceSize(i, names - {n});
    }
  }

  /** A failing numbered candidate renders some member to a used name. */
  lemma Blocker(uses: map<string, seq<Use>>, r: Request, digest: string, n: nat) returns (pair: (nat, string))
    requires Satisfiable(r, digest) && n >= 2 && !AllAddable(uses, Rendered(r, Numbered(r.preferred, digest, n)))
    ensures pair.0 < |r.members| && pair.1 in uses && pair.1 == Render(r.members[pair.0], Numbered(r.preferred, digest, n))
  {
    hide Satisfiable, AllAddable, Portable;
    if !exists i :: 0 <= i < |r.members| && Render(r.members[i], Numbered(r.preferred, digest, n)) in uses {
      FreshStemFits(uses, r, digest, n);
    }
    var i :| 0 <= i < |r.members| && Render(r.members[i], Numbered(r.preferred, digest, n)) in uses;
    pair := (i, Render(r.members[i], Numbered(r.preferred, digest, n)));
  }

  /** Different numbered candidates are blocked by different pairs. */
  lemma BlockersDiffer(r: Request, digest: string, m: nat, n: nat, i: nat)
    requires Portable(r.preferred) && HexDigest(digest) && i < |r.members|
    requires Render(r.members[i], Numbered(r.preferred, digest, m)) == Render(r.members[i], Numbered(r.preferred, digest, n))
    ensures m == n
  {
    NumberedShape(r.preferred, digest, m);
    NumberedShape(r.preferred, digest, n);
    hide Portable;
    RenderInjective(r.members[i], Numbered(r.preferred, digest, m), Numbered(r.preferred, digest, n));
    NumberedInjective(r.preferred, digest, m, n);
  }

  ghost predicate BlockedBy(r: Request, digest: string, first: nat, next: nat, blocked: set<(nat, string)>) {
    forall p :: p in blocked ==>
      (p.0 < |r.members| &&
       exists n: nat :: first <= n < next && p.1 == Render(r.members[p.0], Numbered(r.preferred, digest, n)))
  }

  lemma BlockNext(uses: map<string, seq<Use>>, r: Request, digest: string, first: nat, n: nat, blocked: set<(nat, string)>)
    returns (more: set<(nat, string)>)
    requires Satisfiable(r, digest) && 2 <= first <= n && BlockedBy(r, digest, first, n, blocked)
    requires blocked <= Pairs(|r.members|, uses.Keys) && !AllAddable(uses, Rendered(r, Numbered(r.preferred, digest, n)))
    ensures BlockedBy(r, digest, first, n + 1, more) && more <= Pairs(|r.members|, uses.Keys) && |more| == |blocked| + 1
  {
    var pair := Blocker(uses, r, digest, n);
    assert Portable(r.preferred) && HexDigest(digest);
    hide Satisfiable, Portable, AllAddable;
    if pair in blocked {
      var m: nat :| first <= m < n && pair.1 == Render(r.members[pair.0], Numbered(r.preferred, digest, m));
      BlockersDiffer(r, digest, m, n, pair.0);
    }
    PairsAre(|r.members|, uses.Keys);
    more := blocked + {pair};
  }

  lemma StagedNone(names: seq<(string, Use)>)
    ensures AddAll(map[], names[..0]) == map[]
  {
    assert names[..0] == [];
  }

  lemma StagedOne(names: seq<(string, Use)>, i: nat)
    requires i < |names|
    ensures AddAll(map[], names[..i + 1]) == Add(AddAll(map[], names[..i]), names[i].0, names[i].1)
  {
    assert names[..i + 1][..i] == names[..i];
  }

  function FirstNumbered(r: Request): nat { if r.hashFallback then 2 else 3 }

  lemma CandidateNumbered(r: Request, digest: string, k: nat)
    requires k >= FirstNumbered(r)
    ensures Candidate(r, digest, k) == Numbered(r.preferred, digest, k + 2 - FirstNumbered(r))
  {
  }

  /** What the candidate loop knows after `tries` failures. */
  ghost predicate Trying(uses: map<string, seq<Use>>, r: Request, digest: string, tries: nat, blocked: set<(nat, string)>) {
    && (forall j: nat :: j < tries ==> !AllAddable(uses, Rendered(r, Candidate(r, digest, j))))
    && blocked <= Pairs(|r.members|, uses.Keys)
    && (if tries <= FirstNumbered(r) then blocked == {}
        else tries == FirstNumbered(r) + |blocked| && BlockedBy(r, digest, 2, tries + 2 - FirstNumbered(r), blocked))
  }

  lemma TryNext(uses: map<string, seq<Use>>, r: Request, digest: string, tries: nat, blocked: set<(nat, string)>)
    returns (more: set<(nat, string)>)
    requires Satisfiable(r, digest) && Trying(uses, r, digest, tries, blocked)
    requires !AllAddable(uses, Rendered(r, Candidate(r, digest, tries)))
    ensures Trying(uses, r, digest, tries + 1, more)
  {
    hide Satisfiable, AllAddable, Rendered, Pairs;
    if tries < FirstNumbered(r) {
      more := blocked;
    } else {
      CandidateNumbered(r, digest, tries);
      hide Candidate, Numbered;
      more := BlockNext(uses, r, digest, 2, tries + 2 - FirstNumbered(r), blocked);
    }
  }

  /** Used names times members, and the candidates that come before the numbered ones. */
  function Limit(uses: map<string, seq<Use>>, r: Request): nat {
    |r.members| * |uses| + FirstNumbered(r)
  }

  lemma TryNone(uses: map<string, seq<Use>>, r: Request, digest: string)
    ensures Trying(uses, r, digest, 0, {})
  {
  }

  lemma TryFits(uses: map<string, seq<Use>>, r: Request, digest: string, tries: nat, blocked: set<(nat, string)>)
    requires WellNamed(uses) && Trying(uses, r, digest, tries, blocked)
    requires AllAddable(uses, Rendered(r, Candidate(r, digest, tries)))
    ensures FirstFit(uses, r, digest, tries) && WellNamed(AddAll(uses, Rendered(r, Candidate(r, digest, tries))))
  {
    hide WellNamed, AllAddable, Rendered, Candidate, AddAll, BlockedBy, Pairs;
    AddAllKeepsWellNamed(uses, Rendered(r, Candidate(r, digest, tries)));
  }

  lemma TriesBounded(uses: map<string, seq<Use>>, r: Request, digest: string, tries: nat, blocked: set<(nat, string)>)
    requires Trying(uses, r, digest, tries, blocked)
    ensures tries <= Limit(uses, r)
  {
    hide AllAddable, Rendered, Candidate, BlockedBy, Pairs;
    PairsSize(|r.members|, uses.Keys);
    assert |uses| == |uses.Keys|;
    Within(blocked, Pairs(|r.members|, uses.Keys));
  }

  // ---------------------------------------------------------------- the scope

  datatype Reservation = Reserved | Conflict(owner: string) | NoSuchName

  class Scope {
    var uses: map<string, seq<Use>>

    constructor ()
      ensures uses == map[]
    {
      uses := map[];
    }

    /** reserve: record one fixed name.  The conflict error names the owner of the first use, and there is none to name when
        the spelling itself is at fault, so that the lookup fails instead. */
    method Reserve(name: string, use: Use) returns (r: Reservation)
      requires WellNamed(uses)
      modifies this
      ensures WellNamed(uses)
      ensures r == NoSuchName <==> !Portable(name)
      ensures r.Conflict? <==> Portable(name) && old(use !in Known(uses, name) && !CanAdd(Known(uses, name), name, use))
      ensures r.Conflict? ==> old(Known(uses, name) != []) && r.owner == old(Known(uses, name))[0].owner
      ensures uses == if r == Reserved && old(use !in Known(uses, name)) then Add(old(uses), name, use) else old(uses)
    {
      if use in Known(uses, name) { return Reserved; }
      if !CanAdd(Known(uses, name), name, use) {
        if Known(uses, name) == [] { return NoSuchName; }
        return Conflict(Known(uses, name)[0].owner);
      }
      AddKeepsWellNamed(uses, name, use);
      uses := Add(uses, name, use);
      r := Reserved;
    }

    /** _can_add_all, staging the names accepted so far. */
    method CanAddAll(names: seq<(string, Use)>) returns (ok: bool)
      ensures ok <==> AllAddable(uses, names)
    {
      hide CanAdd, AddAll;
      StagedNone(names);
      var staged: map<string, seq<Use>> := map[];
      var i := 0;
      while i < |names|
        invariant i <= |names| && staged == AddAll(map[], names[..i])
        invariant forall j :: 0 <= j < i ==> CanAdd(Known(AddAll(uses, names[..j]), names[j].0), names[j].0, names[j].1)
      {
        AddAllSplit(uses, names[..i], names[i].0);
        if !CanAdd(Known(uses, names[i].0) + Known(staged, names[i].0), names[i].0, names[i].1) { return false; }
        StagedOne(names, i);
        staged := Add(staged, names[i].0, names[i].1);
        i := i + 1;
      }
      ok := true;
    }

    /** The candidate loop for one request: the first stem that fits, found within the stated number of tries. */
    method AllocateOne(r: Request, digest: string) returns (stem: string, ghost k: nat)
      requires WellNamed(uses) && Satisfiable(r, digest)
      modifies this
      ensures WellNamed(uses) && FirstFit(old(uses), r, digest, k) && stem == Candidate(r, digest, k)
      ensures exists base :: Trimmed(r.preferred, base) && FirstStem(old(uses), r, digest, base, stem)
      ensures uses == AddAll(old(uses), Rendered(r, stem))
      ensures k <= Limit(old(uses), r)
    {
      var start := uses;
      ghost var limit := Limit(uses, r);
      ghost var blocked: set<(nat, string)> := {};
      var tries := 0;
      TryNone(uses, r, digest);
      hide *;
      while true
        invariant uses == start && Trying(start, r, digest, tries, blocked) && tries <= limit
        decreases limit - tries
      {
        stem := Candidate(r, digest, tries);
        var names := Rendered(r, stem);
        var ok := CanAddAll(names);
        if ok {
          TryFits(start, r, digest, tries, blocked);
          FirstFitIs(start, r, digest, tries);
          uses := AddAll(start, names);
          k := tries;
          return;
        }
        blocked := TryNext(start, r, digest, tries, blocked);
        tries := tries + 1;
        TriesBounded(start, r, digest, tries, blocked);
      }
    }

    /** allocate: every request in sorted order. */
    method Allocate(requests: seq<Request>, digests: string -> string) returns (stems: map<string, string>)
      requires WellNamed(uses) && DistinctOwners(requests)
      requires forall r :: r in requests ==> Satisfiable(r, digests(r.owner))
      modifies this
      ensures WellNamed(uses) && Outcome(old(uses), SortRequests(requests), digests, uses, stems)
    {
      hide Satisfiable, WellNamed, FirstFit, Outcome, DistinctOwners, InOrder, Before, SortRequests, AllAddable, Rendered, Candidate, AddAll;
      var sorted := SortRequests(requests);
      SortedAreRequested(requests);
      stems := map[];
      var i := 0;
      OutcomeNone(uses, digests);
      assert sorted[..0] == [];
      while i < |sorted|
        invariant i <= |sorted| && WellNamed(uses) && Outcome(old(uses), sorted[..i], digests, uses, stems)
      {
        var r := sorted[i];
        assert r in sorted;
        ghost var before, got := uses, stems;
        ghost var k;
        var stem;
        stem, k := AllocateOne(r, digests(r.owner));
        stems := stems[r.owner := stem];
        assert sorted[..i + 1] == sorted[..i] + [r];
        OutcomeOne(old(uses), sorted[..i], r, digests, before, got, k);
        i := i + 1;
      }
      assert sorted[..i] == sorted;
    }
  }

  lemma Within<T>(a: set<T>, b: set<T>)
    requires a <= b
    ensures |a| <= |b|
  {
    assert b == a + (b - a);
  }

  lemma SortedAreRequested(requests: seq<Request>)
    requires DistinctOwners(requests)
    ensures forall r :: r in SortRequests(requests) ==> r in requests
  {
    SortKeeps(requests);
    hide SortRequests;
    forall r | r in SortRequests(requests) ensures r in requests {
      assert r in multiset(SortRequests(requests));
      assert r in multiset(requests);
    }
  }

  lemma OutcomeNone(uses: map<string, seq<Use>>, digests: string -> string)
    ensures Outcome(uses, [], digests, uses, map[])
  {
  }

  lemma OutcomeOne(uses: map<string, seq<Use>>, rs: seq<Request>, r: Request, digests: string -> string,
                   mid: map<string, seq<Use>>, got: map<string, string>, k: nat)
    requires Outcome(uses, rs, digests, mid, got) && FirstFit(mid, r, digests(r.owner), k)
    ensures Outcome(uses, rs + [r], digests, AddAll(mid, Rendered(r, Candidate(r, digests(r.owner), k))),
                    got[r.owner := Candidate(r, digests(r.owner), k)])
  {
    hide FirstFit;
    var all := rs + [r];
    assert all[..|all| - 1] == rs && all[|all| - 1] == r;
    assert Outcome(uses, all[..|all| - 1], digests, mid, got) && FirstFit(mid, all[|all| - 1], digests(all[|all| - 1].owner), k);
  }
}
