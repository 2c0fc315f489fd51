/** The connection cache as an index: whatever the hardware does, the hash table, the slot map
    and the counter agree, and together they are a map from tuples to flows. */
module FlowCacheIndex {
  import opened FlowKey
  import opened NextHopList
  import opened Options
  import opened FlowCache
  import opened Counting

  /** A flow in chain h belongs there, lies in the bucket of its CRC, and is what its slot points
      to. */
  ghost predicate Placed(ftable: seq<Option<Flow>>, h: nat, f: Flow)
    requires |ftable| == CTF_MAX_FLOW_TABLE && FlowShape(f)
  {
    Hash(f.key) == h && f.slot / CTF_MAX_BUCKET_INDEX == Bucket(f.key) && ftable[f.slot] == Some(f)
  }

  /** A used slot belongs to the flow that says so, and that flow is in its chain. */
  ghost predicate Owned(chains: seq<seq<Flow>>, i: nat, f: Flow)
    requires |chains| == FA_NAPT_SZ
  {
    f.slot == i && f in chains[Hash(f.key)]
  }

  ghost predicate NoDuplicates(chain: seq<Flow>) {
    forall j, k :: 0 <= j < k < |chain| ==> chain[j].key != chain[k].key
  }

  predicate Used(o: Option<Flow>) {
    o.Some?
  }

  ghost predicate Indexed(s: Fa)
    ensures Indexed(s) ==> Shape(s)
  {
    && Shape(s)
    && (forall h, j :: 0 <= h < FA_NAPT_SZ && 0 <= j < |s.chains[h]| ==> Placed(s.ftable, h, s.chains[h][j]))
    && (forall i :: 0 <= i < CTF_MAX_FLOW_TABLE && s.ftable[i].Some? ==> Owned(s.chains, i, s.ftable[i].value))
    && (forall h :: 0 <= h < FA_NAPT_SZ ==> NoDuplicates(s.chains[h]))
    && s.nflows == Total(s.chains) == Count(s.ftable, Used)
  }

  lemma InitIndexed(io: nat -> Access)
    ensures Indexed(Init(io))
  {
    var s := Init(io);
    TotalZero(s.chains);
    CountZero(s.ftable, Used);
  }

  lemma FindFirst(chain: seq<Flow>, key: Tuple)
    ensures Find(chain, key) == |chain| <==> forall j :: 0 <= j < |chain| ==> chain[j].key != key
  {
  }

  /** Linking a flow that is not there yet, with a slot that is free, at the head of its chain. */
  lemma InsertIndexed(s: Fa, f: Flow)
    requires Indexed(s) && FlowShape(f) && s.ftable[f.slot].None? && Lookup(s, f.key).None?
    requires f.slot / CTF_MAX_BUCKET_INDEX == Bucket(f.key)
    ensures Indexed(Insert(s, f))
  {
    hide Hash, Bucket, HwShape, InBounds;
    var h := Hash(f.key);
    var s' := Insert(s, f);
    FindFirst(s.chains[h], f.key);
    forall g, j | 0 <= g < FA_NAPT_SZ && 0 <= j < |s'.chains[g]| ensures Placed(s'.ftable, g, s'.chains[g][j]) {
      if g != h {
        assert Placed(s.ftable, g, s.chains[g][j]);
      } else if j > 0 {
        assert Placed(s.ftable, g, s.chains[g][j - 1]);
      }
    }
    forall i | 0 <= i < CTF_MAX_FLOW_TABLE && s'.ftable[i].Some? ensures Owned(s'.chains, i, s'.ftable[i].value) {
      if i != f.slot {
        assert Owned(s.chains, i, s.ftable[i].value);
      }
    }
    forall g | 0 <= g < FA_NAPT_SZ ensures NoDuplicates(s'.chains[g]) {
      assert NoDuplicates(s.chains[g]);
    }
    TotalUpdate(s.chains, h, [f] + s.chains[h]);
    CountUpdate(s.ftable, Used, f.slot, Some(f));
  }

  /** Unlinking the k-th flow of a chain. */
  lemma RemoveIndexed(s: Fa, h: nat, k: nat)
    requires Indexed(s) && h < FA_NAPT_SZ && k < |s.chains[h]|
    ensures Indexed(Remove(s, h, k))
  {
    hide Hash, Bucket, HwShape, InBounds;
    var f := s.chains[h][k];
    var s' := Remove(s, h, k);
    assert Placed(s.ftable, h, f);
    assert NoDuplicates(s.chains[h]);
    forall g, j | 0 <= g < FA_NAPT_SZ && 0 <= j < |s'.chains[g]| ensures Placed(s'.ftable, g, s'.chains[g][j]) {
      var j' := if g == h && j >= k then j + 1 else j;
      assert s'.chains[g][j] == s.chains[g][j'];
      assert Placed(s.ftable, g, s.chains[g][j']);
    }
    forall i | 0 <= i < CTF_MAX_FLOW_TABLE && s'.ftable[i].Some? ensures Owned(s'.chains, i, s'.ftable[i].value) {
      assert Owned(s.chains, i, s.ftable[i].value);
      StillThere(s.chains[h], k, s.ftable[i].value);
    }
    NoDuplicatesWithout(s.chains[h], k);
    forall g | 0 <= g < FA_NAPT_SZ ensures NoDuplicates(s'.chains[g]) {
      assert NoDuplicates(s.chains[g]);
    }
    hide Without, NoDuplicates, Owned;
    TotalUpdate(s.chains, h, Without(s.chains[h], k));
    CountUpdate(s.ftable, Used, f.slot, None);
  }

  lemma NoDuplicatesWithout(chain: seq<Flow>, k: nat)
    requires k < |chain| && NoDuplicates(chain)
    ensures NoDuplicates(Without(chain, k))
  {
  }

  lemma StillThere(chain: seq<Flow>, k: nat, g: Flow)
    requires k < |chain| && g != chain[k]
    ensures g in chain ==> g in Without(chain, k)
  {
    if g in chain {
      var j :| 0 <= j < |chain| && chain[j] == g;
      assert Without(chain, k)[if j < k then j else j - 1] == g;
    }
  }

  // ------------------------------------------------------------------ the cached flows as a set

  ghost predicate InCache(s: Fa, f: Flow)
    requires Shape(s)
  {
    f in s.chains[Hash(f.key)]
  }

  /** Everything an index says about one flow. */
  lemma CachedFlow(s: Fa, f: Flow)
    requires Indexed(s) && InCache(s, f)
    ensures FlowShape(f) && Placed(s.ftable, Hash(f.key), f)
    ensures Lookup(s, f.key) == Some(f)
  {
    hide Hash, Bucket;
    var h := Hash(f.key);
    var j :| 0 <= j < |s.chains[h]| && s.chains[h][j] == f;
    assert Placed(s.ftable, h, s.chains[h][j]);
    assert NoDuplicates(s.chains[h]);
    FindFirst(s.chains[h], f.key);
  }

  lemma ChainedIsCached(s: Fa, h: nat, j: nat)
    requires Indexed(s) && h < FA_NAPT_SZ && j < |s.chains[h]|
    ensures InCache(s, s.chains[h][j])
  {
    assert Placed(s.ftable, h, s.chains[h][j]);
  }

  lemma LookupIsCached(s: Fa, key: Tuple)
    requires Indexed(s)
    ensures Lookup(s, key).Some? ==> InCache(s, Lookup(s, key).value) && Lookup(s, key).value.key == key
    ensures Lookup(s, key).None? ==> forall f :: InCache(s, f) ==> f.key != key
  {
    hide Hash, Bucket;
    FindFirst(s.chains[Hash(key)], key);
  }

  lemma InsertMembers(s: Fa, f: Flow)
    requires Shape(s) && FlowShape(f)
    ensures forall g :: InCache(Insert(s, f), g) <==> g == f || InCache(s, g)
  {
    hide Hash, HwShape, InBounds;
  }

  lemma RemoveMembers(s: Fa, h: nat, k: nat)
    requires Indexed(s) && h < FA_NAPT_SZ && k < |s.chains[h]|
    ensures forall g :: InCache(Remove(s, h, k), g) <==> g != s.chains[h][k] && InCache(s, g)
  {
    hide Hash, Bucket, HwShape, InBounds;
    var s' := Remove(s, h, k);
    assert Placed(s.ftable, h, s.chains[h][k]);
    forall g ensures InCache(s', g) <==> g != s.chains[h][k] && InCache(s, g) {
      if Hash(g.key) == h {
        WithoutMembers(s.chains[h], k, g);
      }
    }
  }

  lemma WithoutMembers(chain: seq<Flow>, k: nat, g: Flow)
    requires k < |chain| && NoDuplicates(chain)
    ensures g in Without(chain, k) <==> g != chain[k] && g in chain
  {
    if g != chain[k] {
      StillThere(chain, k, g);
    }
    if g in Without(chain, k) {
      var j :| 0 <= j < |chain| - 1 && Without(chain, k)[j] == g;
      assert chain[if j < k then j else j + 1] == g;
    }
  }

  // ------------------------------------------------------------------ the cache as a map

  ghost function Keys(s: Fa): set<Tuple>
    requires Shape(s)
  {
    set i | 0 <= i < CTF_MAX_FLOW_TABLE && s.ftable[i].Some? :: s.ftable[i].value.key
  }

  /** What fa_napt_lkup_ll answers, for all tuples at once. */
  ghost function AsMap(s: Fa): map<Tuple, Flow>
    requires Shape(s)
  {
    map t | t in Keys(s) && Lookup(s, t).Some? :: Lookup(s, t).value
  }

  lemma AsMapIsLookup(s: Fa, key: Tuple)
    requires Indexed(s)
    ensures key in AsMap(s) <==> Lookup(s, key).Some?
    ensures key in AsMap(s) ==> AsMap(s)[key] == Lookup(s, key).value
    ensures key in AsMap(s) <==> key in Keys(s)
  {
    hide Hash, Bucket;
    LookupIsCached(s, key);
    if Lookup(s, key).Some? {
      var f := Lookup(s, key).value;
      CachedFlow(s, f);
      assert s.ftable[f.slot].value.key == key;
    }
    if key in Keys(s) {
      var i :| 0 <= i < CTF_MAX_FLOW_TABLE && s.ftable[i].Some? && s.ftable[i].value.key == key;
      assert Owned(s.chains, i, s.ftable[i].value);
      assert InCache(s, s.ftable[i].value);
    }
  }

  lemma CachedIffMapped(s: Fa, f: Flow)
    requires Indexed(s)
    ensures InCache(s, f) <==> f.key in AsMap(s) && AsMap(s)[f.key] == f
  {
    AsMapIsLookup(s, f.key);
    LookupIsCached(s, f.key);
    if InCache(s, f) {
      CachedFlow(s, f);
    }
  }

  /** The map is determined by which flows are cached. */
  lemma MapFromMembers(s: Fa, m: map<Tuple, Flow>)
    requires Indexed(s)
    requires forall g :: InCache(s, g) <==> g.key in m && m[g.key] == g
    requires forall t :: t in m ==> m[t].key == t
    ensures AsMap(s) == m
  {
    hide Hash, Bucket, InCache, Lookup, AsMap, Keys, Indexed;
    var a := AsMap(s);
    forall t ensures t in a <==> t in m
      ensures t in a && t in m ==> a[t] == m[t]
    {
      AsMapIsLookup(s, t);
      LookupIsCached(s, t);
      if t in a {
        assert InCache(s, a[t]);
      }
      if t in m {
        CachedIffMapped(s, m[t]);
      }
    }
  }

  /** Adding a flow is the map update. */
  lemma InsertMap(s: Fa, f: Flow)
    requires Indexed(s) && FlowShape(f) && Indexed(Insert(s, f)) && Lookup(s, f.key).None?
    ensures AsMap(Insert(s, f)) == AsMap(s)[f.key := f]
  {
    hide Hash, Bucket, InCache, Lookup, AsMap, Keys, Indexed, Insert;
    var m := AsMap(s)[f.key := f];
    InsertMembers(s, f);
    LookupIsCached(s, f.key);
    forall g ensures InCache(Insert(s, f), g) <==> g.key in m && m[g.key] == g {
      CachedIffMapped(s, g);
    }
    MapKeys(s);
    MapFromMembers(Insert(s, f), m);
  }

  /** Deleting one is the map without its tuple. */
  lemma RemoveMap(s: Fa, h: nat, k: nat)
    requires Indexed(s) && h < FA_NAPT_SZ && k < |s.chains[h]| && Indexed(Remove(s, h, k))
    ensures AsMap(Remove(s, h, k)) == AsMap(s) - {s.chains[h][k].key}
  {
    hide Hash, Bucket, InCache, Lookup, AsMap, Keys, Indexed, Remove;
    var f := s.chains[h][k];
    var m := AsMap(s) - {f.key};
    RemoveMembers(s, h, k);
    ChainedIsCached(s, h, k);
    CachedIffMapped(s, f);
    forall g ensures InCache(Remove(s, h, k), g) <==> g.key in m && m[g.key] == g {
      CachedIffMapped(s, g);
    }
    MapKeys(s);
    MapFromMembers(Remove(s, h, k), m);
  }

  lemma MapKeys(s: Fa)
    requires Indexed(s)
    ensures forall t :: t in AsMap(s) ==> AsMap(s)[t].key == t
  {
    hide Hash, Bucket, Lookup, AsMap, Keys, Indexed;
    forall t | t in AsMap(s) ensures AsMap(s)[t].key == t {
      AsMapIsLookup(s, t);
      LookupIsCached(s, t);
    }
  }

  /** nflows is the number of flows. */
  lemma CounterIsSize(s: Fa)
    requires Indexed(s)
    ensures |AsMap(s)| == s.nflows
  {
    hide Hash, Bucket, Lookup;
    forall i, j | 0 <= i < j < CTF_MAX_FLOW_TABLE && s.ftable[i].Some? && s.ftable[j].Some?
      ensures s.ftable[i].value.key != s.ftable[j].value.key
    {
      SlotKeysDiffer(s, i, j);
    }
    KeysOfPrefix(s.ftable);
    assert Keys(s) == KeysIn(s.ftable);
    MapDomain(s);
  }

  lemma MapDomain(s: Fa)
    requires Indexed(s)
    ensures AsMap(s).Keys == Keys(s)
    ensures |AsMap(s)| == |Keys(s)|
  {
    hide AsMap, Keys, Indexed;
    forall t ensures t in AsMap(s).Keys <==> t in Keys(s) {
      AsMapIsLookup(s, t);
    }
    assert AsMap(s).Keys == Keys(s);
  }

  lemma SlotKeysDiffer(s: Fa, i: nat, j: nat)
    requires Indexed(s) && i < j < CTF_MAX_FLOW_TABLE && s.ftable[i].Some? && s.ftable[j].Some?
    ensures s.ftable[i].value.key != s.ftable[j].value.key
  {
    hide Hash, Bucket, Lookup;
    var f, g := s.ftable[i].value, s.ftable[j].value;
    assert Owned(s.chains, i, f) && Owned(s.chains, j, g);
    assert InCache(s, f) && InCache(s, g);
    CachedFlow(s, f);
    CachedFlow(s, g);
  }

  ghost function KeysIn(ftable: seq<Option<Flow>>): set<Tuple> {
    set i | 0 <= i < |ftable| && ftable[i].Some? :: ftable[i].value.key
  }

  lemma {:induction false} KeysOfPrefix(ftable: seq<Option<Flow>>)
    requires forall i, j :: 0 <= i < j < |ftable| && ftable[i].Some? && ftable[j].Some? ==> ftable[i].value.key != ftable[j].value.key
    ensures |KeysIn(ftable)| == Count(ftable, Used)
    decreases |ftable|
  {
    if ftable != [] {
      var rest := ftable[1..];
      KeysOfPrefix(rest);
      if ftable[0].Some? {
        var key := ftable[0].value.key;
        assert key !in KeysIn(rest);
        assert KeysIn(ftable) == KeysIn(rest) + {key} by {
          KeysSplit(ftable);
        }
      } else {
        KeysSplit(ftable);
        assert KeysIn(ftable) == KeysIn(rest);
      }
    } else {
      assert KeysIn(ftable) == {};
    }
  }

  lemma KeysSplit(ftable: seq<Option<Flow>>)
    requires ftable != []
    ensures forall t :: t in KeysIn(ftable) <==>
              t in KeysIn(ftable[1..]) || (ftable[0].Some? && ftable[0].value.key == t)
  {
    forall t | t in KeysIn(ftable[1..]) ensures t in KeysIn(ftable) {
      var i :| 0 <= i < |ftable[1..]| && ftable[1..][i].Some? && ftable[1..][i].value.key == t;
      assert ftable[i + 1].value.key == t;
    }
    forall t | t in KeysIn(ftable) ensures t in KeysIn(ftable[1..]) || (ftable[0].Some? && ftable[0].value.key == t) {
      var i :| 0 <= i < |ftable| && ftable[i].Some? && ftable[i].value.key == t;
      if i > 0 {
        assert ftable[1..][i - 1].value.key == t;
      }
    }
  }

  /** A slot is used exactly when one cached flow has it as its index, and only one does. */
  lemma SlotIffFlow(s: Fa, i: nat)
    requires Indexed(s) && i < CTF_MAX_FLOW_TABLE
    ensures s.ftable[i].Some? <==> exists f :: InCache(s, f) && f.slot == i
    ensures forall f, g :: InCache(s, f) && InCache(s, g) && f.slot == g.slot ==> f == g
  {
    hide Hash, Bucket;
    forall f, g | InCache(s, f) && InCache(s, g) && f.slot == g.slot ensures f == g {
      CachedFlow(s, f);
      CachedFlow(s, g);
    }
    if s.ftable[i].Some? {
      assert Owned(s.chains, i, s.ftable[i].value);
      assert InCache(s, s.ftable[i].value);
    }
    if f :| InCache(s, f) && f.slot == i {
      CachedFlow(s, f);
    }
  }
}
