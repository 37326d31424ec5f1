/** Hash tables with linear probing. */
module FnvHash {

  // The pair map and the bytes map run the same code over different keys.  The hash is a
  // parameter, so every result holds for every hash function.  A capacity is a power of two, so
  // masking an index with capacity - 1 is the remainder by the capacity.

  import opened Vocabulary

  /** A slot is empty when its value is the sentinel. */
  datatype Slot<K> = Slot(key: K, value: nat)

  predicate Full<K>(s: Slot<K>) {
    s.value != UINT32_MAX
  }

  function Home<K>(hash: K -> nat, cap: nat, k: K): (i: nat)
    requires cap > 0
    ensures i < cap
  {
    hash(k) % cap
  }

  /** How many probes from home, going round, precede slot i. */
  function Distance(cap: nat, home: nat, i: nat): (d: nat)
    requires home < cap && i < cap
    ensures d < cap
  {
    if i >= home then i - home else i + cap - home
  }

  function Next(cap: nat, i: nat): (j: nat)
    requires i < cap
    ensures j < cap
  {
    if i + 1 == cap then 0 else i + 1
  }

  /** The first d slots probed from home are full. */
  ghost predicate FullRun<K>(slots: seq<Slot<K>>, home: nat, d: nat)
    requires home < |slots|
  {
    forall i :: 0 <= i < |slots| && Distance(|slots|, home, i) < d ==> Full(slots[i])
  }

  /** Slot i is found by probing for its own key. */
  ghost predicate Reachable<K>(slots: seq<Slot<K>>, hash: K -> nat, i: nat)
    requires i < |slots|
  {
    var home := Home(hash, |slots|, slots[i].key);
    FullRun(slots, home, Distance(|slots|, home, i))
  }

  ghost function CountFull<K>(slots: seq<Slot<K>>): nat {
    if slots == [] then 0
    else CountFull(slots[..|slots| - 1]) + if Full(Last(slots)) then 1 else 0
  }

  ghost predicate HasEmpty<K>(slots: seq<Slot<K>>) {
    exists i :: 0 <= i < |slots| && !Full(slots[i])
  }

  /** The slots hold exactly the map m, and probing finds every entry. */
  ghost predicate Represents<K>(slots: seq<Slot<K>>, hash: K -> nat, m: map<K, nat>) {
    && HasEmpty(slots)
    && (forall i :: 0 <= i < |slots| && Full(slots[i]) ==>
          slots[i].key in m && m[slots[i].key] == slots[i].value && Reachable(slots, hash, i))
    && (forall i, j :: 0 <= i < j < |slots| && Full(slots[i]) && Full(slots[j]) ==> slots[i].key != slots[j].key)
    && (forall k :: k in m ==> exists i :: 0 <= i < |slots| && Full(slots[i]) && slots[i].key == k)
  }

  lemma {:induction false} CountFullUpdate<K>(slots: seq<Slot<K>>, i: nat, s: Slot<K>)
    requires i < |slots| && !Full(slots[i]) && Full(s)
    ensures CountFull(slots[i := s]) == CountFull(slots) + 1
  {
    var t := slots[i := s];
    if i == |slots| - 1 {
      assert t[..|t| - 1] == slots[..|slots| - 1];
    } else {
      CountFullUpdate(slots[..|slots| - 1], i, s);
      assert t[..|t| - 1] == slots[..|slots| - 1][i := s];
    }
  }

  lemma {:induction false} CountFullBound<K>(slots: seq<Slot<K>>)
    ensures CountFull(slots) <= |slots|
    ensures CountFull(slots) < |slots| ==> HasEmpty(slots)
  {
    if slots != [] {
      var t := slots[..|slots| - 1];
      CountFullBound(t);
      if Full(Last(slots)) && CountFull(slots) < |slots| {
        var i :| 0 <= i < |t| && !Full(t[i]);
        assert !Full(slots[i]);
      } else if !Full(Last(slots)) {
        assert !Full(slots[|slots| - 1]);
      }
    }
  }

  lemma {:induction false} CountFullNone<K>(slots: seq<Slot<K>>)
    requires forall i :: 0 <= i < |slots| ==> !Full(slots[i])
    ensures CountFull(slots) == 0
  {
    if slots != [] {
      CountFullNone(slots[..|slots| - 1]);
    }
  }

  /** A full run stops short of the whole table: there is an empty slot. */
  lemma RunStops<K>(slots: seq<Slot<K>>, home: nat, idx: nat)
    requires HasEmpty(slots) && home < |slots| && idx < |slots| && Full(slots[idx])
    requires FullRun(slots, home, Distance(|slots|, home, idx))
    ensures FullRun(slots, home, Distance(|slots|, home, idx) + 1)
    ensures Distance(|slots|, home, Next(|slots|, idx)) == Distance(|slots|, home, idx) + 1
  {
  }

  lemma HasRoom<K>(slots: seq<Slot<K>>, hash: K -> nat, m: map<K, nat>)
    requires Represents(slots, hash, m)
    ensures HasEmpty(slots)
  {
  }

  /** None of the first d slots probed from home has the key. */
  ghost predicate Missed<K>(slots: seq<Slot<K>>, home: nat, d: nat, k: K)
    requires home < |slots|
  {
    forall i :: 0 <= i < |slots| && Distance(|slots|, home, i) < d ==> slots[i].key != k
  }

  lemma MissedNext<K>(slots: seq<Slot<K>>, home: nat, idx: nat, k: K)
    requires home < |slots| && idx < |slots| && Missed(slots, home, Distance(|slots|, home, idx), k)
    requires slots[idx].key != k
    ensures Missed(slots, home, Distance(|slots|, home, idx) + 1, k)
  {
  }

  /** Slot i is the first one probed for this key that has it. */
  ghost predicate HitAt<K>(slots: seq<Slot<K>>, home: nat, k: K, i: nat)
    requires home < |slots|
  {
    && i < |slots| && Full(slots[i]) && slots[i].key == k
    && FullRun(slots, home, Distance(|slots|, home, i)) && Missed(slots, home, Distance(|slots|, home, i), k)
  }

  /** What a search for the key finds in any slots, whatever was put into them. */
  ghost function Hit<K>(slots: seq<Slot<K>>, hash: K -> nat, k: K): nat
    requires |slots| > 0
  {
    if exists i: nat :: HitAt(slots, Home(hash, |slots|, k), k, i)
    then var i: nat :| HitAt(slots, Home(hash, |slots|, k), k, i); slots[i].value
    else UINT32_MAX
  }

  lemma HitOnce<K>(slots: seq<Slot<K>>, home: nat, k: K, i: nat, j: nat)
    requires home < |slots| && HitAt(slots, home, k, i) && HitAt(slots, home, k, j)
    ensures i == j
  {
  }

  lemma HitIs<K>(slots: seq<Slot<K>>, hash: K -> nat, k: K, i: nat)
    requires |slots| > 0 && HitAt(slots, Home(hash, |slots|, k), k, i)
    ensures Hit(slots, hash, k) == slots[i].value
  {
    hide HitAt, Home;
    var home := Home(hash, |slots|, k);
    forall j: nat | HitAt(slots, home, k, j) ensures i == j {
      HitOnce(slots, home, k, i, j);
    }
  }

  /** An empty slot before the key ends the search. */
  lemma NoHit<K>(slots: seq<Slot<K>>, hash: K -> nat, k: K, idx: nat)
    requires idx < |slots| && !Full(slots[idx])
    requires var home := Home(hash, |slots|, k); Missed(slots, home, Distance(|slots|, home, idx), k)
    ensures Hit(slots, hash, k) == UINT32_MAX
  {
    var home := Home(hash, |slots|, k);
    forall i: nat ensures !HitAt(slots, home, k, i) {
    }
  }

  /** Where the slots hold a map, a search finds what the map has. */
  lemma HitMap<K>(slots: seq<Slot<K>>, hash: K -> nat, m: map<K, nat>, k: K)
    requires Represents(slots, hash, m)
    ensures |slots| > 0 && Hit(slots, hash, k) == if k in m then m[k] else UINT32_MAX
  {
    if k in m {
      var i := EntryOf(slots, hash, m, k);
      EntryAt(slots, hash, m, i);
      assert HitAt(slots, Home(hash, |slots|, k), k, i);
      HitIs(slots, hash, k, i);
    }
  }

  /** pairmap_get and bytesmap_get. */
  method Get<K(==)>(slots: seq<Slot<K>>, hash: K -> nat, k: K, ghost m: map<K, nat>) returns (r: nat)
    requires HasEmpty(slots)
    ensures r == Hit(slots, hash, k)
    ensures Represents(slots, hash, m) ==> r == if k in m then m[k] else UINT32_MAX
  {
    hide Represents, Home, Hit;
    if Represents(slots, hash, m) { HitMap(slots, hash, m, k); }
    var home := Home(hash, |slots|, k);
    var idx: nat := home;
    assert Distance(|slots|, home, idx) == 0;
    while Full(slots[idx])
      invariant idx < |slots|
      invariant FullRun(slots, home, Distance(|slots|, home, idx))
      invariant Missed(slots, home, Distance(|slots|, home, idx), k)
      decreases |slots| - Distance(|slots|, home, idx)
    {
      hide FullRun, Missed, Distance, Next;
      if slots[idx].key == k {
        HitIs(slots, hash, k, idx);
        return slots[idx].value;
      }
      RunStops(slots, home, idx);
      MissedNext(slots, home, idx, k);
      idx := Next(|slots|, idx);
    }
    NoHit(slots, hash, k, idx);
    return UINT32_MAX;
  }

  /** The slot where an entry with this home goes: the first empty one. */
  method FindEmpty<K>(slots: array<Slot<K>>, home: nat) returns (idx: nat)
    requires HasEmpty(slots[..]) && home < slots.Length
    ensures idx < slots.Length && !Full(slots[idx])
    ensures FullRun(slots[..], home, Distance(slots.Length, home, idx))
  {
    idx := home;
    while Full(slots[idx])
      invariant idx < slots.Length
      invariant FullRun(slots[..], home, Distance(slots.Length, home, idx))
      decreases slots.Length - Distance(slots.Length, home, idx)
    {
      RunStops(slots[..], home, idx);
      idx := Next(slots.Length, idx);
    }
  }

  /** An entry of the table as an entry of the map. */
  lemma EntryAt<K>(slots: seq<Slot<K>>, hash: K -> nat, m: map<K, nat>, i: nat)
    requires Represents(slots, hash, m) && i < |slots| && Full(slots[i])
    ensures slots[i].key in m && m[slots[i].key] == slots[i].value && Reachable(slots, hash, i)
  {
  }

  lemma EntryOf<K>(slots: seq<Slot<K>>, hash: K -> nat, m: map<K, nat>, k: K) returns (i: nat)
    requires Represents(slots, hash, m) && k in m
    ensures i < |slots| && Full(slots[i]) && slots[i].key == k
  {
    i :| 0 <= i < |slots| && Full(slots[i]) && slots[i].key == k;
  }

  lemma OneEntry<K>(slots: seq<Slot<K>>, hash: K -> nat, m: map<K, nat>, i: nat, j: nat)
    requires Represents(slots, hash, m) && i < |slots| && j < |slots| && Full(slots[i]) && Full(slots[j])
    ensures slots[i].key == slots[j].key ==> i == j
  {
  }

  /** Filling an empty slot hides no entry. */
  lemma StillReachable<K>(slots: seq<Slot<K>>, hash: K -> nat, idx: nat, s: Slot<K>, i: nat)
    requires idx < |slots| && !Full(slots[idx]) && Full(s) && i < |slots| && i != idx && Reachable(slots, hash, i)
    ensures Reachable(slots[idx := s], hash, i)
  {
  }

  lemma NewReachable<K>(slots: seq<Slot<K>>, hash: K -> nat, idx: nat, s: Slot<K>)
    requires idx < |slots| && !Full(slots[idx]) && Full(s)
    requires FullRun(slots, Home(hash, |slots|, s.key), Distance(|slots|, Home(hash, |slots|, s.key), idx))
    ensures Reachable(slots[idx := s], hash, idx)
  {
  }

  /** Writing a new entry where probing stops adds exactly that entry. */
  lemma RepresentsInsert<K>(slots: seq<Slot<K>>, hash: K -> nat, m: map<K, nat>, idx: nat, s: Slot<K>)
    requires Represents(slots, hash, m)
    requires idx < |slots| && !Full(slots[idx]) && Full(s) && s.key !in m
    requires FullRun(slots, Home(hash, |slots|, s.key), Distance(|slots|, Home(hash, |slots|, s.key), idx))
    requires HasEmpty(slots[idx := s])
    ensures Represents(slots[idx := s], hash, m[s.key := s.value])
  {
    var t := slots[idx := s];
    var m' := m[s.key := s.value];
    NewReachable(slots, hash, idx, s);
    hide Represents, Reachable, FullRun, HasEmpty, Full;
    forall i | 0 <= i < |t| && Full(t[i])
      ensures t[i].key in m' && m'[t[i].key] == t[i].value && Reachable(t, hash, i)
    {
      if i != idx {
        EntryAt(slots, hash, m, i);
        StillReachable(slots, hash, idx, s, i);
      }
    }
    forall i, j | 0 <= i < j < |t| && Full(t[i]) && Full(t[j]) ensures t[i].key != t[j].key {
      if i != idx { EntryAt(slots, hash, m, i); }
      if j != idx { EntryAt(slots, hash, m, j); }
      if i != idx && j != idx { OneEntry(slots, hash, m, i, j); }
    }
    forall k | k in m' ensures exists i :: 0 <= i < |t| && Full(t[i]) && t[i].key == k {
      if k == s.key {
        assert Full(t[idx]);
      } else {
        var i := EntryOf(slots, hash, m, k);
        assert Full(t[i]) && t[i].key == k;
      }
    }
    IsRepresents(t, hash, m');
  }

  lemma IsRepresents<K>(slots: seq<Slot<K>>, hash: K -> nat, m: map<K, nat>)
    requires HasEmpty(slots)
    requires forall i :: 0 <= i < |slots| && Full(slots[i]) ==>
               slots[i].key in m && m[slots[i].key] == slots[i].value && Reachable(slots, hash, i)
    requires forall i, j :: 0 <= i < j < |slots| && Full(slots[i]) && Full(slots[j]) ==> slots[i].key != slots[j].key
    requires forall k :: k in m ==> exists i :: 0 <= i < |slots| && Full(slots[i]) && slots[i].key == k
    ensures Represents(slots, hash, m)
  {
  }

  /** A freshly allocated table: every slot is marked empty. */
  method ClearSlots<K>(slots: array<Slot<K>>)
    requires slots.Length > 0
    modifies slots
    ensures forall hash: K -> nat :: Represents(slots[..], hash, map[])
    ensures CountFull(slots[..]) == 0
  {
    for i := 0 to slots.Length
      invariant forall j :: 0 <= j < i ==> !Full(slots[j])
    {
      slots[i] := slots[i].(value := UINT32_MAX);
    }
    CountFullNone(slots[..]);
    assert !Full(slots[..][0]);
  }

  /** One free slot was written. */
  predicate WroteAt<K(==)>(was: seq<Slot<K>>, now: seq<Slot<K>>, idx: nat, s: Slot<K>) {
    idx < |was| && !Full(was[idx]) && now == was[idx := s]
  }

  class ProbeTable<K(0,==,!new)> {
    const hash: K -> nat
    var slots: array<Slot<K>>
    var count: nat
    ghost var contents: map<K, nat>

    /** The number of entries is known. */
    ghost predicate Counted()
      reads this, slots
    {
      slots.Length > 0 && CountFull(slots[..]) == count
    }

    /** No key was inserted twice, and the slots hold the map. */
    ghost predicate Valid()
      reads this, slots
    {
      Counted() && Represents(slots[..], hash, contents)
    }

    lemma ValidRepresents()
      requires Valid()
      ensures Represents(slots[..], hash, contents)
    {
    }

    lemma HasRoom()
      requires Counted() && count < slots.Length
      ensures HasEmpty(slots[..])
    {
      CountFullBound(slots[..]);
    }

    constructor (hash: K -> nat, capacity: nat)
      requires capacity > 0
      ensures Counted() && Valid() && fresh(slots) && slots.Length == capacity
      ensures contents == map[] && count == 0 && this.hash == hash
    {
      this.hash := hash;
      count := 0;
      contents := map[];
      slots := new Slot<K>[capacity];
      new;
      ClearSlots(slots);
    }

    /** bytesmap_insert, and pairmap_insert once there is room.  The key is not looked for first. */
    method Put(k: K, value: nat)
      requires Counted() && value != UINT32_MAX && count + 1 < slots.Length
      modifies this`count, this`contents, slots
      ensures Counted() && slots == old(slots)
      ensures contents == old(contents)[k := value] && count == old(count) + 1
      ensures exists idx: nat :: WroteAt(old(slots[..]), slots[..], idx, Slot(k, value))
      ensures old(Valid()) && k !in old(contents) ==> Valid()
    {
      CountFullBound(slots[..]);
      var idx := FindEmpty(slots, Home(hash, slots.Length, k));
      ghost var was, had := slots[..], contents;
      slots[idx] := Slot(k, value);
      count := count + 1;
      assert slots[..] == was[idx := Slot(k, value)];
      assert WroteAt(was, slots[..], idx, Slot(k, value));
      CountFullUpdate(was, idx, Slot(k, value));
      CountFullBound(slots[..]);
      if Represents(was, hash, had) && k !in had {
        RepresentsInsert(was, hash, had, idx, Slot(k, value));
      }
      contents := contents[k := value];
    }

    /** pairmap_insert: keeps the table at most half full. */
    method Insert(k: K, value: nat)
      requires Valid() && k !in contents && value != UINT32_MAX
      requires slots.Length >= 4 && slots.Length % 2 == 0 && count * 2 <= slots.Length
      modifies this`slots, this`count, this`contents, slots
      ensures Valid() && (slots == old(slots) || fresh(slots))
      ensures slots.Length >= 4 && slots.Length % 2 == 0 && count * 2 <= slots.Length
      ensures contents == old(contents)[k := value]
    {
      hide Represents, CountFull;
      if count * 2 >= slots.Length {
        Grow();
      }
      Put(k, value);
    }

    /** pairmap_grow: doubles the capacity and inserts every entry again. */
    method Grow()
      requires Valid()
      modifies this`slots
      ensures Valid() && fresh(slots) && slots.Length == 2 * old(slots.Length)
      ensures contents == old(contents) && count == old(count)
    {
      var bigger := new Slot<K>[2 * slots.Length];
      ClearSlots(bigger);
      Rehash(slots[..], bigger, hash, contents);
      slots := bigger;
    }
  }

  ghost predicate KeyAmong<K>(slots: seq<Slot<K>>, i: nat, k: K)
    requires i <= |slots|
  {
    exists j :: 0 <= j < i && Full(slots[j]) && slots[j].key == k
  }

  /** moved is m restricted to the keys of the first i slots. */
  ghost predicate Moved<K(!new)>(slots: seq<Slot<K>>, i: nat, m: map<K, nat>, moved: map<K, nat>)
    requires i <= |slots|
  {
    && (forall k :: k in moved <==> KeyAmong(slots, i, k))
    && (forall k :: k in moved ==> k in m && moved[k] == m[k])
  }

  lemma MovedAll<K(!new)>(slots: seq<Slot<K>>, hash: K -> nat, m: map<K, nat>, moved: map<K, nat>)
    requires Represents(slots, hash, m) && Moved(slots, |slots|, m, moved)
    ensures moved == m
  {
    hide Represents;
    forall k | k in m ensures KeyAmong(slots, |slots|, k) {
      var i := EntryOf(slots, hash, m, k);
    }
  }

  lemma KeyAmongNext<K>(slots: seq<Slot<K>>, i: nat, k: K)
    requires i < |slots|
    ensures KeyAmong(slots, i + 1, k) <==> KeyAmong(slots, i, k) || (Full(slots[i]) && slots[i].key == k)
  {
  }

  lemma MovedNext<K(!new)>(slots: seq<Slot<K>>, hash: K -> nat, m: map<K, nat>, i: nat, moved: map<K, nat>)
    requires Represents(slots, hash, m) && i < |slots| && Moved(slots, i, m, moved)
    ensures if Full(slots[i]) then slots[i].key !in moved
            && Moved(slots, i + 1, m, moved[slots[i].key := slots[i].value])
            else Moved(slots, i + 1, m, moved)
  {
    hide Represents, KeyAmong;
    forall k ensures KeyAmong(slots, i + 1, k) <==> KeyAmong(slots, i, k) || (Full(slots[i]) && slots[i].key == k) {
      KeyAmongNext(slots, i, k);
    }
    if Full(slots[i]) {
      EntryAt(slots, hash, m, i);
      FirstWithKey(slots, hash, m, i);
    }
  }

  lemma FirstWithKey<K>(slots: seq<Slot<K>>, hash: K -> nat, m: map<K, nat>, i: nat)
    requires Represents(slots, hash, m) && i < |slots| && Full(slots[i])
    ensures !KeyAmong(slots, i, slots[i].key)
  {
  }

  /** The loop of pairmap_grow. */
  method Rehash<K(!new)>(was: seq<Slot<K>>, slots: array<Slot<K>>, hash: K -> nat, ghost m: map<K, nat>)
    requires Represents(was, hash, m)
    requires Represents(slots[..], hash, map[]) && CountFull(slots[..]) == 0 && slots.Length == 2 * |was|
    modifies slots
    ensures Represents(slots[..], hash, m) && CountFull(slots[..]) == CountFull(was)
  {
    ghost var moved: map<K, nat> := map[];
    for i := 0 to |was|
      invariant Represents(slots[..], hash, moved) && Moved(was, i, m, moved)
      invariant CountFull(slots[..]) == CountFull(was[..i])
    {
      assert was[..i + 1][..i] == was[..i];
      MovedNext(was, hash, m, i, moved);
      if Full(was[i]) {
        CountFullBound(was[..i]);
        moved := Reinsert(slots, hash, was[i], moved);
      }
    }
    assert was[..|was|] == was;
    MovedAll(was, hash, m, moved);
  }

  /** Inserts an entry with a new key into a table more than half empty. */
  method Reinsert<K>(slots: array<Slot<K>>, hash: K -> nat, s: Slot<K>, ghost m: map<K, nat>)
      returns (ghost m': map<K, nat>)
    requires Represents(slots[..], hash, m) && Full(s) && s.key !in m
    requires CountFull(slots[..]) + 1 < slots.Length
    modifies slots
    ensures m' == m[s.key := s.value] && Represents(slots[..], hash, m')
    ensures CountFull(slots[..]) == old(CountFull(slots[..])) + 1
  {
    var idx := FindEmpty(slots, Home(hash, slots.Length, s.key));
    ghost var was := slots[..];
    slots[idx] := s;
    assert slots[..] == was[idx := s];
    CountFullUpdate(was, idx, s);
    CountFullBound(slots[..]);
    RepresentsInsert(was, hash, m, idx, s);
    m' := m[s.key := s.value];
  }
}
