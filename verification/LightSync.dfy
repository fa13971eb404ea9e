/** Header-first light synchronisation: which headers are connected, and which of them is the tip. */
module LightSync {
  import opened Common

  /** Block hashes, ordered as their hexadecimal text is. */
  type Hash = nat

  datatype Header = Header(height: u64, parent: Hash, body: seq<byte>)

  datatype Checkpoint = Checkpoint(height: u64, blockHash: Hash)

  datatype AddStatus = Added | Duplicate | TooManyHeaders

  type Headers = map<Hash, Header>

  // -------- connection --------

  /** A header of height 0, or one whose parent is linked and one lower. */
  predicate Linked(hs: Headers, h: Hash)
    decreases if h in hs then hs[h].height else 0
  {
    && h in hs
    && (hs[h].height == 0 ||
        (hs[h].parent in hs && hs[hs[h].parent].height + 1 == hs[h].height && Linked(hs, hs[h].parent)))
  }

  /** The chain of a linked header, as the set of its members. */
  function Chain(hs: Headers, h: Hash): (s: set<Hash>)
    requires Linked(hs, h)
    decreases hs[h].height
  {
    if hs[h].height == 0 then {h} else {h} + Chain(hs, hs[h].parent)
  }

  /** A linked header of height `n` stands on `n` other known headers. */
  lemma {:induction false} ChainSize(hs: Headers, h: Hash)
    requires Linked(hs, h)
    ensures Chain(hs, h) <= hs.Keys && |Chain(hs, h)| == hs[h].height + 1
    ensures forall g | g in Chain(hs, h) :: hs[g].height <= hs[h].height
    decreases hs[h].height
  {
    if hs[h].height > 0 {
      ChainSize(hs, hs[h].parent);
    }
  }

  lemma LinkedNeedsHeaders(hs: Headers, h: Hash)
    requires Linked(hs, h)
    ensures hs[h].height < |hs|
  {
    ChainSize(hs, h);
    SubsetSize(Chain(hs, h), hs.Keys);
    assert |hs.Keys| == |hs|;
  }

  lemma {:induction false} SubsetSize<T>(a: set<T>, b: set<T>)
    requires a <= b
    ensures |a| <= |b|
  {
    assert b == a + (b - a);
  }

  lemma {:induction false} LinkedStays(hs: Headers, hs': Headers, h: Hash)
    requires Linked(hs, h)
    requires forall g | g in hs :: g in hs' && hs'[g] == hs[g]
    ensures Linked(hs', h)
    decreases hs[h].height
  {
    if hs[h].height > 0 {
      LinkedStays(hs, hs', hs[h].parent);
    }
  }

  // -------- checkpoints --------

  predicate StrictlyRising(cps: seq<Checkpoint>) {
    forall i, j | 0 <= i < j < |cps| :: cps[i].height < cps[j].height
  }

  /** The last checkpoint in the list that is not above `height`. */
  function Applicable(cps: seq<Checkpoint>, height: nat): Option<Checkpoint> {
    if cps == [] then None
    else if cps[|cps| - 1].height <= height then Some(cps[|cps| - 1])
    else Applicable(cps[..|cps| - 1], height)
  }

  predicate HighestApplicable(cps: seq<Checkpoint>, height: nat, c: Checkpoint) {
    c in cps && c.height <= height && forall d | d in cps && d.height <= height :: d.height <= c.height
  }

  lemma {:induction false} ApplicableIsHighest(cps: seq<Checkpoint>, height: nat)
    requires StrictlyRising(cps)
    ensures match Applicable(cps, height)
      case Some(c) => HighestApplicable(cps, height, c)
      case None => forall d | d in cps :: d.height > height
  {
    if cps != [] && cps[|cps| - 1].height > height {
      ApplicableIsHighest(cps[..|cps| - 1], height);
    }
  }

  /** The hash reached from `tip` after `up` steps to the parent; every header stepped from must be known. */
  function Ancestor(hs: Headers, tip: Hash, up: nat): Option<Hash>
    decreases up
  {
    if up == 0 then Some(tip)
    else if tip !in hs then None
    else Ancestor(hs, hs[tip].parent, up - 1)
  }

  lemma {:induction false} LinkedAncestor(hs: Headers, h: Hash, up: nat)
    requires Linked(hs, h) && up <= hs[h].height
    ensures Ancestor(hs, h, up).Some?
    ensures var a := Ancestor(hs, h, up).value; Linked(hs, a) && hs[a].height == hs[h].height - up
    ensures Ancestor(hs, h, up).value in Chain(hs, h)
    decreases up
  {
    if up > 0 {
      LinkedAncestor(hs, hs[h].parent, up - 1);
    }
  }

  predicate Allowed(hs: Headers, cps: seq<Checkpoint>, h: Hash, height: nat) {
    match Applicable(cps, height)
    case None => true
    case Some(c) => c.height <= height && Ancestor(hs, h, height - c.height) == Some(c.blockHash)
  }

  lemma HighestIsUnique(cps: seq<Checkpoint>, height: nat, c: Checkpoint, d: Checkpoint)
    requires StrictlyRising(cps) && HighestApplicable(cps, height, c) && HighestApplicable(cps, height, d)
    ensures c == d
  {
  }

  predicate OnChain(hs: Headers, h: Hash, c: Checkpoint)
    requires Linked(hs, h)
  {
    c.blockHash in hs && c.blockHash in Chain(hs, h) && hs[c.blockHash].height == c.height
  }

  lemma AncestorIsOnChain(hs: Headers, h: Hash, c: Checkpoint)
    requires Linked(hs, h) && c.height <= hs[h].height
    ensures Ancestor(hs, h, hs[h].height - c.height) == Some(c.blockHash) <==> OnChain(hs, h, c)
  {
    LinkedAncestor(hs, h, hs[h].height - c.height);
    if OnChain(hs, h, c) {
      OnePerHeight(hs, h, c.blockHash, Ancestor(hs, h, hs[h].height - c.height).value);
    }
  }

  /** A linked header is allowed when its own chain has the block of the highest applicable checkpoint. */
  lemma AllowedMeansOnChain(hs: Headers, cps: seq<Checkpoint>, h: Hash)
    requires StrictlyRising(cps) && Linked(hs, h)
    ensures Allowed(hs, cps, h, hs[h].height) <==>
      forall c | HighestApplicable(cps, hs[h].height, c) :: OnChain(hs, h, c)
  {
    hide Chain, Applicable, OnChain, HighestApplicable, Ancestor;
    var height := hs[h].height;
    ApplicableIsHighest(cps, height);
    match Applicable(cps, height)
    case Some(c) =>
      AboveNone(cps, height, c);
      AncestorIsOnChain(hs, h, c);
      forall d | HighestApplicable(cps, height, d) ensures d == c {
        HighestIsUnique(cps, height, c, d);
      }
    case None =>
      forall d ensures !HighestApplicable(cps, height, d) {
        if HighestApplicable(cps, height, d) {
          AboveNone(cps, height, d);
        }
      }
  }

  lemma AboveNone(cps: seq<Checkpoint>, height: nat, c: Checkpoint)
    requires HighestApplicable(cps, height, c)
    ensures c in cps && c.height <= height
  {
  }

  lemma {:induction false} OnePerHeight(hs: Headers, h: Hash, a: Hash, b: Hash)
    requires Linked(hs, h) && a in Chain(hs, h) && b in Chain(hs, h)
    requires a in hs && b in hs && hs[a].height == hs[b].height
    ensures a == b
    decreases hs[h].height
  {
    if hs[h].height > 0 {
      ChainSize(hs, hs[h].parent);
      if a != h && b != h {
        OnePerHeight(hs, hs[h].parent, a, b);
      }
    }
  }

  // -------- the tip --------

  predicate Eligible(hs: Headers, cps: seq<Checkpoint>, h: Hash) {
    Linked(hs, h) && Allowed(hs, cps, h, hs[h].height)
  }

  /** `a` is at least as good a tip as `b`: higher, or as high with no larger hash. */
  predicate AsGood(hs: Headers, a: Hash, b: Hash)
    requires a in hs && b in hs
  {
    hs[a].height > hs[b].height || (hs[a].height == hs[b].height && a <= b)
  }

  /** `tip` is the best of the eligible headers in `among`. */
  predicate BestOf(hs: Headers, cps: seq<Checkpoint>, among: set<Hash>, tip: Option<Hash>)
  {
    match tip
    case None => forall h | h in among :: !Eligible(hs, cps, h)
    case Some(t) => Eligible(hs, cps, t) && forall h | h in among && Eligible(hs, cps, h) :: AsGood(hs, t, h)
  }

  predicate IsTip(hs: Headers, cps: seq<Checkpoint>, tip: Option<Hash>) {
    BestOf(hs, cps, hs.Keys, tip)
  }

  lemma TipExists(hs: Headers, cps: seq<Checkpoint>, tip: Option<Hash>)
    requires IsTip(hs, cps, tip)
    ensures tip.Some? <==> exists h :: Eligible(hs, cps, h)
    ensures tip.Some? ==> forall h | Eligible(hs, cps, h) :: h in hs && AsGood(hs, tip.value, h)
  {
    forall h | Eligible(hs, cps, h) ensures h in hs.Keys {
    }
  }

  /** Headers and checkpoints determine the tip. */
  lemma TipIsUnique(hs: Headers, cps: seq<Checkpoint>, a: Option<Hash>, b: Option<Hash>)
    requires IsTip(hs, cps, a) && IsTip(hs, cps, b)
    ensures a == b
  {
    TipExists(hs, cps, a);
    TipExists(hs, cps, b);
  }

  /** No allowed chain is longer than the tip's, and of those as long the tip's hash is the smallest. */
  lemma TipHasLongestChain(hs: Headers, cps: seq<Checkpoint>, tip: Hash, h: Hash)
    requires IsTip(hs, cps, Some(tip)) && Eligible(hs, cps, h)
    ensures Linked(hs, tip) && Allowed(hs, cps, tip, hs[tip].height)
    ensures |Chain(hs, h)| <= |Chain(hs, tip)|
    ensures |Chain(hs, h)| == |Chain(hs, tip)| ==> tip <= h
  {
    hide Linked, Allowed, Chain;
    TipExists(hs, cps, Some(tip));
    ChainSize(hs, h);
    ChainSize(hs, tip);
  }

  // -------- arrival order --------

  /** What one offered header does to the known ones. */
  function Accept(hs: Headers, header: Header, blockHash: Header -> Hash, maxHeaders: nat): Headers {
    if |hs| >= maxHeaders || blockHash(header) in hs then hs else hs[blockHash(header) := header]
  }

  function AcceptAll(s: seq<Header>, blockHash: Header -> Hash, maxHeaders: nat): Headers {
    if s == [] then map[]
    else Accept(AcceptAll(s[..|s| - 1], blockHash, maxHeaders), s[|s| - 1], blockHash, maxHeaders)
  }

  function Elements(s: seq<Header>): set<Header> {
    set h | h in s
  }

  predicate DistinctHashes(headers: set<Header>, blockHash: Header -> Hash) {
    forall a, b | a in headers && b in headers && blockHash(a) == blockHash(b) :: a == b
  }

  predicate KnowsExactly(hs: Headers, headers: set<Header>, blockHash: Header -> Hash) {
    && (forall h | h in headers :: blockHash(h) in hs && hs[blockHash(h)] == h)
    && (forall k | k in hs :: hs[k] in headers && blockHash(hs[k]) == k)
  }

  lemma SameHashSameHeader(hs: Headers, headers: set<Header>, h: Header, blockHash: Header -> Hash)
    requires KnowsExactly(hs, headers, blockHash) && DistinctHashes(headers + {h}, blockHash)
    ensures blockHash(h) in hs ==> h in headers
  {
    if blockHash(h) in hs {
      var g := hs[blockHash(h)];
      assert g in headers + {h} && h in headers + {h} && blockHash(g) == blockHash(h);
    }
  }

  lemma {:induction false} AllAreAccepted(s: seq<Header>, blockHash: Header -> Hash, maxHeaders: nat)
    requires DistinctHashes(Elements(s), blockHash) && |Elements(s)| <= maxHeaders
    ensures KnowsExactly(AcceptAll(s, blockHash, maxHeaders), Elements(s), blockHash)
    ensures |AcceptAll(s, blockHash, maxHeaders)| == |Elements(s)|
  {
    if s != [] {
      var front, last := s[..|s| - 1], s[|s| - 1];
      assert s == front + [last];
      assert Elements(s) == Elements(front) + {last};
      SubsetSize(Elements(front), Elements(s));
      AllAreAccepted(front, blockHash, maxHeaders);
      var hs := AcceptAll(front, blockHash, maxHeaders);
      assert last in Elements(s);
      SameHashSameHeader(hs, Elements(front), last, blockHash);
      if last in Elements(front) {
        assert Elements(s) == Elements(front);
      } else {
        assert hs[blockHash(last) := last].Keys == hs.Keys + {blockHash(last)};
      }
    }
  }

  /** The known headers, hence the tip, depend on which headers arrived and not on their order or repetition. */
  lemma ArrivalOrderDoesNotMatter(s: seq<Header>, t: seq<Header>, blockHash: Header -> Hash, maxHeaders: nat)
    requires Elements(s) == Elements(t)
    requires DistinctHashes(Elements(s), blockHash) && |Elements(s)| <= maxHeaders
    ensures AcceptAll(s, blockHash, maxHeaders) == AcceptAll(t, blockHash, maxHeaders)
  {
    AllAreAccepted(s, blockHash, maxHeaders);
    AllAreAccepted(t, blockHash, maxHeaders);
    var a, b := AcceptAll(s, blockHash, maxHeaders), AcceptAll(t, blockHash, maxHeaders);
    forall k ensures k in a <==> k in b {
      if k in a {
        assert a[k] in Elements(t);
      }
      if k in b {
        assert b[k] in Elements(s);
      }
    }
    forall k | k in a ensures a[k] == b[k] {
      assert a[k] in Elements(t);
    }
  }

  /** One header more than the limit, and the order of arrival decides which is known. */
  lemma OverTheLimitOrderMatters(s: seq<Header>, extra: Header, blockHash: Header -> Hash, maxHeaders: nat)
    requires DistinctHashes(Elements(s + [extra]), blockHash) && extra !in s
    requires |Elements(s)| == maxHeaders > 0
    ensures AcceptAll(s + [extra], blockHash, maxHeaders) != AcceptAll([extra] + s, blockHash, maxHeaders)
  {
    assert Elements(s) <= Elements(s + [extra]);
    AllAreAccepted(s, blockHash, maxHeaders);
    var hs := AcceptAll(s, blockHash, maxHeaders);
    assert (s + [extra])[..|s|] == s;
    assert Elements(s + [extra]) == Elements(s) + {extra};
    SameHashSameHeader(hs, Elements(s), extra, blockHash);
    FirstIsKept(extra, s, blockHash, maxHeaders);
  }

  /** No order of arrival gives other known headers. */
  ghost predicate OrderIsIrrelevant(s: seq<Header>, blockHash: Header -> Hash, maxHeaders: nat) {
    forall t: seq<Header> | Elements(t) == Elements(s) ::
      AcceptAll(t, blockHash, maxHeaders) == AcceptAll(s, blockHash, maxHeaders)
  }

  /** The order of arrival is irrelevant exactly when the headers fit the limit, or none is ever kept. */
  lemma OrderIsIrrelevantIff(s: seq<Header>, blockHash: Header -> Hash, maxHeaders: nat)
    requires DistinctHashes(Elements(s), blockHash)
    ensures OrderIsIrrelevant(s, blockHash, maxHeaders) <==> |Elements(s)| <= maxHeaders || maxHeaders == 0
  {
    if |Elements(s)| <= maxHeaders || maxHeaders == 0 {
      forall t: seq<Header> | Elements(t) == Elements(s)
        ensures AcceptAll(t, blockHash, maxHeaders) == AcceptAll(s, blockHash, maxHeaders)
      {
        if maxHeaders == 0 {
          NothingIsKept(s, blockHash);
          NothingIsKept(t, blockHash);
        } else {
          ArrivalOrderDoesNotMatter(s, t, blockHash, maxHeaders);
        }
      }
    } else {
      var t := OtherOrder(s, blockHash, maxHeaders);
    }
  }

  lemma {:induction false} NothingIsKept(s: seq<Header>, blockHash: Header -> Hash)
    ensures AcceptAll(s, blockHash, 0) == map[]
  {
    if s != [] {
      NothingIsKept(s[..|s| - 1], blockHash);
    }
  }

  /** Past the limit a header that was not kept would have been kept, had it come first. */
  lemma OtherOrder(s: seq<Header>, blockHash: Header -> Hash, maxHeaders: nat) returns (t: seq<Header>)
    requires DistinctHashes(Elements(s), blockHash) && |Elements(s)| > maxHeaders > 0
    ensures Elements(t) == Elements(s)
    ensures AcceptAll(t, blockHash, maxHeaders) != AcceptAll(s, blockHash, maxHeaders)
  {
    var hs := AcceptAll(s, blockHash, maxHeaders);
    AtMostTheLimit(s, blockHash, maxHeaders);
    var left := LeftOut(hs, Elements(s), blockHash);
    t := [left] + s;
    forall h ensures h in Elements(t) <==> h in Elements(s) {
      assert h in t <==> h == left || h in s;
    }
    FirstIsKept(left, s, blockHash, maxHeaders);
  }

  lemma {:induction false} AtMostTheLimit(s: seq<Header>, blockHash: Header -> Hash, maxHeaders: nat)
    ensures |AcceptAll(s, blockHash, maxHeaders)| <= maxHeaders
  {
    if s != [] {
      AtMostTheLimit(s[..|s| - 1], blockHash, maxHeaders);
      var hs, k := AcceptAll(s[..|s| - 1], blockHash, maxHeaders), blockHash(s[|s| - 1]);
      assert k !in hs ==> hs[k := s[|s| - 1]].Keys == hs.Keys + {k};
    }
  }

  /** Fewer hashes than headers: some header's hash is not there. */
  lemma {:induction false} LeftOut(hs: Headers, headers: set<Header>, blockHash: Header -> Hash) returns (left: Header)
    requires DistinctHashes(headers, blockHash) && |headers| > |hs|
    ensures left in headers && blockHash(left) !in hs
    decreases |headers|
  {
    var h :| h in headers;
    if blockHash(h) !in hs {
      left := h;
    } else {
      var fewer, rest := hs - {blockHash(h)}, headers - {h};
      assert hs.Keys == fewer.Keys + {blockHash(h)};
      left := LeftOut(fewer, rest, blockHash);
      assert left in headers && h in headers;
    }
  }

  lemma {:induction false} FirstIsKept(first: Header, s: seq<Header>, blockHash: Header -> Hash, maxHeaders: nat)
    requires maxHeaders > 0
    ensures blockHash(first) in AcceptAll([first] + s, blockHash, maxHeaders)
  {
    if s == [] {
      assert ([first] + s)[..0] == [];
    } else {
      FirstIsKept(first, s[..|s| - 1], blockHash, maxHeaders);
      assert ([first] + s)[..|s|] == [first] + s[..|s| - 1];
    }
  }
}
