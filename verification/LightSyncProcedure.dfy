/** The light header store as it is updated in place, in whatever order its table is walked. */
module LightSyncProcedure {
  import opened Common
  import opened LightSync

  datatype HeaderInfo = HeaderInfo(header: Header, connected: bool, chainWork: u64)

  type Table = map<Hash, HeaderInfo>

  function HeadersOf(t: Table): (hs: Headers)
    ensures hs.Keys == t.Keys
    ensures forall k | k in t :: hs[k] == t[k].header
  {
    map k | k in t :: t[k].header
  }

  /** Connected entries are linked and carry their chain length as work. */
  predicate Sound(t: Table) {
    forall k | k in t && t[k].connected ::
      Linked(HeadersOf(t), k) && t[k].chainWork == t[k].header.height + 1
  }

  predicate Complete(t: Table) {
    forall k | k in t && Linked(HeadersOf(t), k) :: t[k].connected
  }

  /** No entry has a connected parent one below it without being connected itself. */
  predicate Settled(t: Table) {
    forall k | k in t :: !Connectable(t, k)
  }

  predicate Connectable(t: Table, k: Hash)
    requires k in t
  {
    && !t[k].connected
    && (t[k].header.height == 0 ||
        var p := t[k].header.parent;
        p in t && t[p].connected && t[k].header.height == t[p].header.height + 1)
  }

  lemma {:induction false} LinkedIsConnected(t: Table, k: Hash)
    requires Settled(t) && Linked(HeadersOf(t), k)
    ensures t[k].connected
    decreases t[k].header.height
  {
    if t[k].header.height > 0 {
      LinkedIsConnected(t, t[k].header.parent);
    }
    assert !Connectable(t, k);
  }

  lemma SettledIsComplete(t: Table)
    requires Settled(t)
    ensures Complete(t)
  {
    forall k | k in t && Linked(HeadersOf(t), k) ensures t[k].connected {
      LinkedIsConnected(t, k);
    }
  }

  function Unconnected(t: Table): set<Hash> {
    set k | k in t && !t[k].connected
  }

  /** Connecting one connectable entry leaves the headers alone and one entry fewer unconnected. */
  lemma ConnectOne(t: Table, k: Hash, t': Table)
    requires Sound(t) && k in t && Connectable(t, k) && |t| <= U64_MAX
    requires t' == t[k := t[k].(connected := true, chainWork := Wrap64(t[k].header.height + 1))]
    ensures HeadersOf(t') == HeadersOf(t)
    ensures Sound(t')
    ensures Unconnected(t') == Unconnected(t) - {k} && k in Unconnected(t)
    ensures t[k].header.height + 1 <= U64_MAX
  {
    assert HeadersOf(t') == HeadersOf(t);
    assert Linked(HeadersOf(t), k);
    LinkedNeedsHeaders(HeadersOf(t), k);
    assert |HeadersOf(t)| == |HeadersOf(t).Keys| == |t.Keys| == |t|;
  }

  predicate Keyed(hs: Headers, blockHash: Header -> Hash) {
    forall k | k in hs :: blockHash(hs[k]) == k
  }

  class LightHeaderSync {
    const maxHeaders: u64
    const blockHash: Header -> Hash

    var checkpoints: seq<Checkpoint>
    var byHash: Table
    var tip: Option<Hash>
    var tipHeight: nat

    ghost predicate Valid()
      reads this
    {
      && StrictlyRising(checkpoints)
      && |byHash| <= maxHeaders
      && Keyed(HeadersOf(byHash), blockHash)
      && Sound(byHash) && Complete(byHash)
      && match tip
         case None => true
         case Some(t) => Eligible(HeadersOf(byHash), checkpoints, t) && tipHeight == byHash[t].header.height
    }

    constructor (maxHeaders: u64, blockHash: Header -> Hash)
      ensures Valid() && HeadersOf(byHash) == map[] && checkpoints == [] && tip == None
      ensures this.maxHeaders == maxHeaders && this.blockHash == blockHash
    {
      this.maxHeaders, this.blockHash := maxHeaders, blockHash;
      checkpoints, byHash, tip, tipHeight := [], map[], None, 0;
    }

    method AncestorHash(start: Hash, height: nat, target: nat) returns (r: Option<Hash>)
      ensures r == if target > height then None else Ancestor(HeadersOf(byHash), start, height - target)
    {
      if target > height {
        return None;
      }
      var hash, h := start, height;
      while h > target
        invariant h >= target
        invariant Ancestor(HeadersOf(byHash), hash, h - target) == Ancestor(HeadersOf(byHash), start, height - target)
      {
        if hash !in byHash {
          return None;
        }
        hash := byHash[hash].header.parent;
        h := h - 1;
      }
      return Some(hash);
    }

    /** Looks for the applicable checkpoint from the highest down. */
    method CheckpointAllows(hash: Hash, height: nat) returns (ok: bool)
      ensures ok == Allowed(HeadersOf(byHash), checkpoints, hash, height)
    {
      assert checkpoints[..|checkpoints|] == checkpoints;
      for i := |checkpoints| downto 0
        invariant Applicable(checkpoints, height) == Applicable(checkpoints[..i], height)
      {
        var c := checkpoints[i];
        assert checkpoints[..i + 1][..i] == checkpoints[..i];
        if c.height <= height {
          var a := AncestorHash(hash, height, c.height);
          return a == Some(c.blockHash);
        }
      }
      return true;
    }

    method TryConnect(k: Hash) returns (progress: bool)
      requires k in byHash && Sound(byHash) && |byHash| <= U64_MAX
      modifies this`byHash
      ensures HeadersOf(byHash) == HeadersOf(old(byHash)) && Sound(byHash)
      ensures progress == Connectable(old(byHash), k)
      ensures if progress then Unconnected(byHash) < Unconnected(old(byHash)) else byHash == old(byHash)
    {
      var hi := byHash[k];
      if hi.connected {
        return false;
      }
      if hi.header.height != 0 {
        if hi.header.parent !in byHash || !byHash[hi.header.parent].connected {
          return false;
        }
        var parent := byHash[hi.header.parent];
        assert |HeadersOf(byHash)| == |HeadersOf(byHash).Keys| == |byHash.Keys| == |byHash|;
        LinkedNeedsHeaders(HeadersOf(byHash), hi.header.parent);
        if hi.header.height != Wrap64(parent.header.height + 1) {
          return false;
        }
        ConnectOne(byHash, k, byHash[k := hi.(connected := true, chainWork := Wrap64(parent.chainWork + 1))]);
        byHash := byHash[k := hi.(connected := true, chainWork := Wrap64(parent.chainWork + 1))];
      } else {
        ConnectOne(byHash, k, byHash[k := hi.(connected := true, chainWork := 1)]);
        byHash := byHash[k := hi.(connected := true, chainWork := 1)];
      }
      return true;
    }

    /** One pass over the table in an arbitrary order. */
    method ConnectPass() returns (progress: bool)
      requires Sound(byHash) && |byHash| <= U64_MAX
      modifies this`byHash
      ensures HeadersOf(byHash) == HeadersOf(old(byHash)) && Sound(byHash)
      ensures progress ==> Unconnected(byHash) < Unconnected(old(byHash))
      ensures !progress ==> byHash == old(byHash) && Settled(byHash)
    {
      progress := false;
      var todo := byHash.Keys;
      while todo != {}
        invariant todo <= byHash.Keys
        invariant HeadersOf(byHash) == HeadersOf(old(byHash)) && Sound(byHash)
        invariant |byHash| <= U64_MAX
        invariant progress ==> Unconnected(byHash) < Unconnected(old(byHash))
        invariant !progress ==> byHash == old(byHash) && forall k | k in byHash && k !in todo :: !Connectable(byHash, k)
        decreases |todo|
      {
        var k :| k in todo;
        todo := todo - {k};
        ghost var before := byHash;
        var connected := TryConnect(k);
        assert |byHash| == |byHash.Keys| == |before.Keys|;
        if connected {
          progress := true;
        }
      }
    }

    /** Passes until one makes no progress. */
    method ConnectAll()
      requires Sound(byHash) && |byHash| <= U64_MAX
      modifies this`byHash
      ensures HeadersOf(byHash) == HeadersOf(old(byHash)) && Sound(byHash) && Complete(byHash)
    {
      var progress := true;
      while progress
        invariant HeadersOf(byHash) == HeadersOf(old(byHash)) && Sound(byHash) && |byHash| <= U64_MAX
        invariant !progress ==> Settled(byHash)
        decreases |Unconnected(byHash)|, progress
      {
        ghost var before := byHash;
        progress := ConnectPass();
        assert |byHash| == |byHash.Keys| == |before.Keys|;
        if progress {
          ProperSubsetSize(Unconnected(byHash), Unconnected(before));
        }
      }
      SettledIsComplete(byHash);
    }

    method MaybeUpdateTip(k: Hash, ghost seen: set<Hash>)
      requires k in byHash && Sound(byHash) && Complete(byHash)
      requires BestOf(HeadersOf(byHash), checkpoints, seen, tip)
      requires tip.Some? ==> tip.value in byHash && tipHeight == byHash[tip.value].header.height
      modifies this`tip, this`tipHeight
      ensures BestOf(HeadersOf(byHash), checkpoints, seen + {k}, tip)
      ensures tip.Some? ==> tip.value in byHash && tipHeight == byHash[tip.value].header.height
    {
      hide Linked, Allowed;
      var hi := byHash[k];
      if !hi.connected {
        return;
      }
      var allowed := CheckpointAllows(k, hi.header.height);
      if !allowed {
        return;
      }
      if tip.None? || hi.header.height > tipHeight || (hi.header.height == tipHeight && k < tip.value) {
        tip, tipHeight := Some(k), hi.header.height;
      }
    }

    method UpdateTip()
      requires Sound(byHash) && Complete(byHash)
      requires tip.Some? ==> Eligible(HeadersOf(byHash), checkpoints, tip.value)
      requires tip.Some? ==> tip.value in byHash && tipHeight == byHash[tip.value].header.height
      modifies this`tip, this`tipHeight
      ensures IsTip(HeadersOf(byHash), checkpoints, tip)
      ensures tip.Some? ==> tip.value in byHash && tipHeight == byHash[tip.value].header.height
    {
      hide Linked, Allowed;
      var todo := byHash.Keys;
      ghost var seen: set<Hash> := if tip.Some? then {tip.value} else {};
      while todo != {}
        invariant seen <= byHash.Keys <= seen + todo && todo <= byHash.Keys
        invariant BestOf(HeadersOf(byHash), checkpoints, seen, tip)
        invariant tip.Some? ==> tip.value in byHash && tipHeight == byHash[tip.value].header.height
        decreases |todo|
      {
        var k :| k in todo;
        todo := todo - {k};
        MaybeUpdateTip(k, seen);
        seen := seen + {k};
      }
      assert seen == HeadersOf(byHash).Keys;
    }

    /** After a header is added the connected entries are the linked headers and the tip is the best of them. */
    method AddHeader(h: Header) returns (status: AddStatus)
      requires Valid()
      modifies this`byHash, this`tip, this`tipHeight
      ensures Valid()
      ensures HeadersOf(byHash) == Accept(HeadersOf(old(byHash)), h, blockHash, maxHeaders)
      ensures status == (
        if |old(byHash)| >= maxHeaders then TooManyHeaders
        else if blockHash(h) in old(byHash) then Duplicate
        else Added)
      ensures status.Added? ==> IsTip(HeadersOf(byHash), checkpoints, tip)
      ensures !status.Added? ==> byHash == old(byHash) && tip == old(tip) && tipHeight == old(tipHeight)
    {
      hide Linked, Allowed, Sound, Complete, StrictlyRising, IsTip, HeadersOf;
      HeaderCount(byHash);
      if |byHash| >= maxHeaders {
        return TooManyHeaders;
      }
      var hash := blockHash(h);
      if hash in byHash {
        return Duplicate;
      }
      ghost var before := byHash;
      byHash := byHash[hash := HeaderInfo(h, false, 0)];
      AddedIsSound(before, hash, h, byHash);
      KeyedAdded(HeadersOf(before), h, blockHash);
      if tip.Some? {
        TipIsKnown(HeadersOf(before), checkpoints, tip);
        StillEligible(HeadersOf(before), HeadersOf(byHash), checkpoints, tip.value);
      }
      Settle();
      return Added;
    }

    /** Connects what can be connected and chooses the tip again. */
    method Settle()
      requires StrictlyRising(checkpoints) && Sound(byHash) && |byHash| <= U64_MAX
      requires tip.Some? ==>
        Eligible(HeadersOf(byHash), checkpoints, tip.value) && tipHeight == byHash[tip.value].header.height
      modifies this`byHash, this`tip, this`tipHeight
      ensures HeadersOf(byHash) == HeadersOf(old(byHash)) && |byHash| == |old(byHash)|
      ensures Sound(byHash) && Complete(byHash) && IsTip(HeadersOf(byHash), checkpoints, tip)
      ensures tip.Some? ==>
        Eligible(HeadersOf(byHash), checkpoints, tip.value) && tipHeight == byHash[tip.value].header.height
    {
      hide Linked, Allowed, Sound, Complete, StrictlyRising;
      TipIsKnown(HeadersOf(byHash), checkpoints, tip);
      HeaderCount(byHash);
      ConnectAll();
      HeaderCount(byHash);
      UpdateTip();
      TipIsKnown(HeadersOf(byHash), checkpoints, tip);
      if tip.Some? {
        var allowed := CheckpointAllows(tip.value, tipHeight);
        if !allowed {
          // The source drops the tip here; it never has to.
          assert false;
        }
      }
    }

    /** New checkpoints can only take the tip away; the best one under them is chosen at the next added header. */
    method SetCheckpoints(cps: seq<Checkpoint>)
      requires Valid()
      modifies this`checkpoints, this`tip, this`tipHeight
      ensures Valid() && SameHeights(checkpoints, cps)
      ensures tip == if old(tip).Some? && Allowed(HeadersOf(byHash), checkpoints, old(tip).value, old(tipHeight))
                     then old(tip) else None
    {
      checkpoints := Normalise(cps);
      if tip.Some? {
        var allowed := CheckpointAllows(tip.value, tipHeight);
        if !allowed {
          tip, tipHeight := None, 0;
        }
      }
    }

    /** A fresh store given any headers in any order ends on the one tip that those headers determine. */
    method Synchronise(s: seq<Header>)
      requires Valid() && HeadersOf(byHash) == map[] && tip == None
      modifies this`byHash, this`tip, this`tipHeight
      ensures Valid()
      ensures HeadersOf(byHash) == AcceptAll(s, blockHash, maxHeaders)
      ensures IsTip(HeadersOf(byHash), checkpoints, tip)
    {
      for i := 0 to |s|
        invariant Valid()
        invariant HeadersOf(byHash) == AcceptAll(s[..i], blockHash, maxHeaders)
        invariant IsTip(HeadersOf(byHash), checkpoints, tip)
      {
        assert s[..i + 1][..i] == s[..i];
        var status := AddHeader(s[i]);
      }
      assert s[..|s|] == s;
    }
  }

  lemma ProperSubsetSize<T>(a: set<T>, b: set<T>)
    requires a < b
    ensures |a| < |b|
  {
    assert b == a + (b - a) && b - a != {};
  }

  lemma HeaderCount(t: Table)
    ensures |HeadersOf(t)| == |t|
  {
    assert |HeadersOf(t)| == |HeadersOf(t).Keys| == |t.Keys| == |t|;
  }

  lemma TipIsKnown(hs: Headers, cps: seq<Checkpoint>, tip: Option<Hash>)
    ensures tip.Some? && Eligible(hs, cps, tip.value) ==> tip.value in hs
  {
  }

  lemma KeyedAdded(hs: Headers, h: Header, blockHash: Header -> Hash)
    requires Keyed(hs, blockHash)
    ensures Keyed(hs[blockHash(h) := h], blockHash)
  {
  }

  lemma AddedHeaders(t: Table, k: Hash, h: Header)
    requires k !in t
    ensures HeadersOf(t[k := HeaderInfo(h, false, 0)]) == HeadersOf(t)[k := h]
    ensures |t[k := HeaderInfo(h, false, 0)]| == |t| + 1
  {
    var t' := t[k := HeaderInfo(h, false, 0)];
    assert t'.Keys == t.Keys + {k};
    assert |t'| == |t'.Keys| && |t| == |t.Keys|;
  }

  lemma AddedIsSound(t: Table, k: Hash, h: Header, t': Table)
    requires Sound(t) && k !in t && t' == t[k := HeaderInfo(h, false, 0)]
    ensures Sound(t') && HeadersOf(t') == HeadersOf(t)[k := h]
    ensures |t'| == |t| + 1
  {
    hide Linked, HeadersOf;
    AddedHeaders(t, k, h);
    forall j | j in t' && t'[j].connected ensures Linked(HeadersOf(t'), j) {
      LinkedStays(HeadersOf(t), HeadersOf(t'), j);
    }
  }

  /** What was eligible stays so when headers are added. */
  lemma StillEligible(hs: Headers, hs': Headers, cps: seq<Checkpoint>, h: Hash)
    requires Eligible(hs, cps, h)
    requires forall g | g in hs :: g in hs' && hs'[g] == hs[g]
    ensures Eligible(hs', cps, h)
  {
    LinkedStays(hs, hs', h);
    var applicable := Applicable(cps, hs[h].height);
    if applicable.Some? {
      SameAncestor(hs, hs', h, hs[h].height - applicable.value.height);
    }
  }

  lemma {:induction false} SameAncestor(hs: Headers, hs': Headers, h: Hash, up: nat)
    requires Ancestor(hs, h, up).Some?
    requires forall g | g in hs :: g in hs' && hs'[g] == hs[g]
    ensures Ancestor(hs', h, up) == Ancestor(hs, h, up)
    decreases up
  {
    if up > 0 {
      SameAncestor(hs, hs', hs[h].parent, up - 1);
    }
  }

  predicate HasHeight(cps: seq<Checkpoint>, height: nat) {
    exists i | 0 <= i < |cps| :: cps[i].height == height
  }

  /** The same checkpoints, one for each height. */
  predicate SameHeights(sorted: seq<Checkpoint>, cps: seq<Checkpoint>) {
    && (forall c | c in sorted :: c in cps)
    && (forall c | c in cps :: HasHeight(sorted, c.height))
  }

  function InsertByHeight(sorted: seq<Checkpoint>, c: Checkpoint): seq<Checkpoint> {
    if sorted == [] then [c]
    else
      var front, last := sorted[..|sorted| - 1], sorted[|sorted| - 1];
      if last.height < c.height then sorted + [c]
      else if last.height == c.height then sorted
      else InsertByHeight(front, c) + [last]
  }

  lemma {:induction false} InsertRises(sorted: seq<Checkpoint>, c: Checkpoint)
    requires StrictlyRising(sorted)
    ensures StrictlyRising(InsertByHeight(sorted, c))
    ensures forall i | 0 <= i < |InsertByHeight(sorted, c)| ::
      InsertByHeight(sorted, c)[i] == c || InsertByHeight(sorted, c)[i] in sorted
  {
    if sorted != [] && sorted[|sorted| - 1].height > c.height {
      InsertRises(sorted[..|sorted| - 1], c);
    }
  }

  lemma {:induction false} InsertKeeps(sorted: seq<Checkpoint>, c: Checkpoint)
    ensures forall h: nat | HasHeight(sorted, h) :: HasHeight(InsertByHeight(sorted, c), h)
    ensures HasHeight(InsertByHeight(sorted, c), c.height)
  {
    if sorted == [] {
      assert InsertByHeight(sorted, c)[0] == c;
    } else {
      var front, last := sorted[..|sorted| - 1], sorted[|sorted| - 1];
      if last.height < c.height {
        AppendKeepsHeights(sorted, c);
      } else if last.height > c.height {
        InsertKeeps(front, c);
        AppendKeepsHeights(InsertByHeight(front, c), last);
        HeightsSplit(sorted);
      } else {
        assert sorted[|sorted| - 1].height == c.height;
      }
    }
  }

  lemma HeightsSplit(s: seq<Checkpoint>)
    requires s != []
    ensures forall h: nat | HasHeight(s, h) :: HasHeight(s[..|s| - 1], h) || h == s[|s| - 1].height
  {
    forall h: nat | HasHeight(s, h) && h != s[|s| - 1].height ensures HasHeight(s[..|s| - 1], h) {
      var i :| 0 <= i < |s| && s[i].height == h;
      assert s[..|s| - 1][i].height == h;
    }
  }

  lemma AppendKeepsHeights(s: seq<Checkpoint>, c: Checkpoint)
    ensures HasHeight(s + [c], c.height)
    ensures forall h: nat | HasHeight(s, h) :: HasHeight(s + [c], h)
  {
    assert (s + [c])[|s|] == c;
    forall h: nat | HasHeight(s, h) ensures HasHeight(s + [c], h) {
      var i :| 0 <= i < |s| && s[i].height == h;
      assert (s + [c])[i].height == h;
    }
  }

  lemma InsertKeepsHeights(sorted: seq<Checkpoint>, cps: seq<Checkpoint>, c: Checkpoint)
    requires StrictlyRising(sorted) && SameHeights(sorted, cps)
    ensures StrictlyRising(InsertByHeight(sorted, c)) && SameHeights(InsertByHeight(sorted, c), cps + [c])
  {
    hide InsertByHeight;
    InsertRises(sorted, c);
    InsertKeeps(sorted, c);
    forall d | d in cps + [c] ensures HasHeight(InsertByHeight(sorted, c), d.height) {
      assert d in cps ==> HasHeight(sorted, d.height);
    }
  }

  method Normalise(cps: seq<Checkpoint>) returns (sorted: seq<Checkpoint>)
    ensures StrictlyRising(sorted) && SameHeights(sorted, cps)
  {
    hide SameHeights, StrictlyRising, InsertByHeight;
    sorted := [];
    assert SameHeights([], []) && StrictlyRising([]) by {
      NothingToSort();
    }
    for i := 0 to |cps|
      invariant StrictlyRising(sorted) && SameHeights(sorted, cps[..i])
    {
      assert cps[..i + 1] == cps[..i] + [cps[i]];
      InsertKeepsHeights(sorted, cps[..i], cps[i]);
      sorted := InsertByHeight(sorted, cps[i]);
    }
    assert cps[..|cps|] == cps;
  }

  lemma NothingToSort()
    ensures SameHeights([], []) && StrictlyRising([])
  {
  }
}
