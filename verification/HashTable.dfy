/**
 The open-addressing hash table (khash) that holds the balance sheet and the mempool, with flags,
 keys and values changed in place.  `pos` records the bucket of every key; `Contents` is the finite
 map the table stands for.
 */
module HashTable {
  import opened Words
  import opened Probing

  datatype Flag = Empty | Deleted | Live

  // (khint_t)(n * 0.77 + 0.5); for a power of two the product is never half-way, so this is exact.
  function UpperBound(n: nat): nat { (77 * n + 50) / 100 }

  // kroundup32, then at least 4.
  function RoundUp(n: nat): nat { RoundUpFrom(4, n) }

  function RoundUpFrom(p: nat, n: nat): nat
    requires p > 0
    decreases n - p
  {
    if p >= n then p else RoundUpFrom(2 * p, n)
  }

  lemma {:induction false} Pow2Order(p: nat, n: nat)
    requires IsPow2(p) && IsPow2(n) && p < n
    ensures 2 * p <= n
  {
    if p > 1 { Pow2Order(p / 2, n / 2); }
  }

  lemma {:induction false} RoundUpPow2(p: nat, n: nat)
    requires IsPow2(p)
    ensures IsPow2(RoundUpFrom(p, n)) && RoundUpFrom(p, n) >= p && RoundUpFrom(p, n) >= n
    decreases n - p
  {
    if p < n {
      assert 2 * p / 2 == p;
      RoundUpPow2(2 * p, n);
    }
  }

  lemma {:induction false} RoundUpNear(p: nat, n: nat)
    requires IsPow2(p) && IsPow2(n) && 4 <= p <= n
    ensures RoundUpFrom(p, n - 1) == n && RoundUpFrom(p, n + 1) == 2 * n
    decreases n - p
  {
    if p < n {
      Pow2Order(p, n);
      assert 2 * p / 2 == p;
      RoundUpNear(2 * p, n);
      assert p < n - 1;
    } else {
      assert RoundUpFrom(2 * n, n + 1) == 2 * n;
    }
  }

  // ---------- counting buckets ----------

  function Used(flags: seq<Flag>): nat {
    if flags == [] then 0 else Used(flags[..|flags| - 1]) + if flags[|flags| - 1] != Empty then 1 else 0
  }

  function Lives(flags: seq<Flag>): nat {
    if flags == [] then 0 else Lives(flags[..|flags| - 1]) + if flags[|flags| - 1] == Live then 1 else 0
  }

  lemma {:induction false} CountUpdate(flags: seq<Flag>, i: nat, f: Flag)
    requires i < |flags|
    ensures Used(flags[i := f]) == Used(flags) - (if flags[i] != Empty then 1 else 0) + (if f != Empty then 1 else 0)
    ensures Lives(flags[i := f]) == Lives(flags) - (if flags[i] == Live then 1 else 0) + (if f == Live then 1 else 0)
  {
    var init := flags[..|flags| - 1];
    if i < |init| {
      CountUpdate(init, i, f);
      assert flags[i := f][..|flags| - 1] == init[i := f];
    } else {
      assert flags[i := f][..|flags| - 1] == init;
    }
  }

  lemma {:induction false} CountBounds(flags: seq<Flag>)
    ensures Lives(flags) <= Used(flags) <= |flags|
    ensures (forall i :: 0 <= i < |flags| ==> flags[i] != Live) ==> Lives(flags) == 0
    ensures (forall i :: 0 <= i < |flags| ==> flags[i] == Empty) ==> Used(flags) == 0
    ensures (forall i :: 0 <= i < |flags| ==> flags[i] != Deleted) ==> Lives(flags) == Used(flags)
  {
    if flags != [] { CountBounds(flags[..|flags| - 1]); }
  }

  lemma {:induction false} SomeEmpty(flags: seq<Flag>) returns (i: nat)
    requires Used(flags) < |flags|
    ensures i < |flags| && flags[i] == Empty
  {
    if flags[|flags| - 1] == Empty {
      i := |flags| - 1;
    } else {
      i := SomeEmpty(flags[..|flags| - 1]);
    }
  }

  // ---------- probe paths ----------

  // The first s probes from h hit buckets that are not empty.
  ghost predicate Crowded(flags: seq<Flag>, h: nat, s: nat)
    requires |flags| > 0
  {
    forall t :: 0 <= t < s ==> flags[Probe(h, t, |flags|)] != Empty
  }

  ghost predicate PathTo(flags: seq<Flag>, h: nat, s: nat, i: nat)
    requires |flags| > 0
  {
    s < |flags| && Probe(h, s, |flags|) == i && Crowded(flags, h, s)
  }

  ghost predicate Reached(flags: seq<Flag>, h: nat, i: nat)
    requires |flags| > 0
  {
    exists s :: PathTo(flags, h, s, i)
  }

  // With an empty bucket left, a probe sequence meets it before it has made n probes.
  lemma StillRoom(flags: seq<Flag>, h: nat, s: nat)
    requires IsPow2(|flags|) && Used(flags) < |flags|
    requires s < |flags| && Crowded(flags, h, s) && flags[Probe(h, s, |flags|)] != Empty
    ensures s + 1 < |flags| && Crowded(flags, h, s + 1)
  {
    hide Probe, Used, IsPow2;
    var i := SomeEmpty(flags);
    var t := ProbesCover(h, i, |flags|);
    assert flags[Probe(h, t, |flags|)] == Empty;
  }

  // Filling a bucket disturbs no path.
  lemma FillKeepsPaths(flags: seq<Flag>, x: nat, f: Flag, h: nat, i: nat)
    requires x < |flags| && f != Empty && Reached(flags, h, i)
    ensures Reached(flags[x := f], h, i)
  {
    hide Probe;
    var s :| PathTo(flags, h, s, i);
    assert PathTo(flags[x := f], h, s, i);
  }

  // ---------- the table invariant ----------

  ghost predicate Indexed<K>(flags: seq<Flag>, keys: seq<K>, pos: map<K, nat>)
    requires |keys| == |flags|
  {
    && (forall k :: k in pos ==> pos[k] < |flags| && flags[pos[k]] == Live && keys[pos[k]] == k)
    && (forall i :: 0 <= i < |flags| && flags[i] == Live ==> keys[i] in pos && pos[keys[i]] == i)
  }

  ghost predicate Paths<K(!new)>(hash: K -> nat, flags: seq<Flag>, keys: seq<K>)
    requires |keys| == |flags|
  {
    forall i :: 0 <= i < |flags| && flags[i] == Live ==> Reached(flags, hash(keys[i]), i)
  }

  lemma InsertKeeps<K(!new)>(hash: K -> nat, flags: seq<Flag>, keys: seq<K>, pos: map<K, nat>, x: nat, s: nat, key: K)
    requires |keys| == |flags| && Indexed(flags, keys, pos) && Paths(hash, flags, keys)
    requires x < |flags| && flags[x] != Live && key !in pos && PathTo(flags, hash(key), s, x)
    ensures Indexed(flags[x := Live], keys[x := key], pos[key := x])
    ensures Paths(hash, flags[x := Live], keys[x := key])
  {
    hide Reached, PathTo;
    var flags', keys' := flags[x := Live], keys[x := key];
    assert Reached(flags, hash(key), x) by { PathReached(flags, hash(key), s, x); }
    forall i | 0 <= i < |flags| && flags'[i] == Live ensures Reached(flags', hash(keys'[i]), i) {
      FillKeepsPaths(flags, x, Live, hash(keys'[i]), i);
    }
  }

  lemma PathReached(flags: seq<Flag>, h: nat, s: nat, i: nat)
    requires |flags| > 0 && PathTo(flags, h, s, i)
    ensures Reached(flags, h, i)
  {
  }

  lemma DeleteKeeps<K(!new)>(hash: K -> nat, flags: seq<Flag>, keys: seq<K>, pos: map<K, nat>, x: nat)
    requires |keys| == |flags| && Indexed(flags, keys, pos) && Paths(hash, flags, keys)
    requires x < |flags| && flags[x] == Live
    ensures Indexed(flags[x := Deleted], keys, pos - {keys[x]})
    ensures Paths(hash, flags[x := Deleted], keys)
  {
    hide Reached;
    forall i | 0 <= i < |flags| && flags[x := Deleted][i] == Live
      ensures Reached(flags[x := Deleted], hash(keys[i]), i)
    {
      FillKeepsPaths(flags, x, Deleted, hash(keys[i]), i);
    }
  }

  // A search that stops at an empty bucket has not passed the key, so the key is absent.
  lemma SearchMisses<K(!new)>(hash: K -> nat, flags: seq<Flag>, keys: seq<K>, pos: map<K, nat>, key: K, s: nat)
    requires |keys| == |flags| > 0 && Indexed(flags, keys, pos) && Paths(hash, flags, keys)
    requires flags[Probe(hash(key), s, |flags|)] == Empty
    requires Missed(flags, keys, hash(key), key, s)
    ensures key !in pos
  {
    hide Probe;
  }

  // The first s probes do not hold the key.
  predicate Missed<K(==)>(flags: seq<Flag>, keys: seq<K>, h: nat, key: K, s: nat)
    requires |keys| == |flags| > 0
  {
    forall t :: 0 <= t < s ==> flags[Probe(h, t, |flags|)] != Live || keys[Probe(h, t, |flags|)] != key
  }

  lemma MissedNext<K>(flags: seq<Flag>, keys: seq<K>, h: nat, key: K, s: nat)
    requires |keys| == |flags| > 0 && (s > 0 ==> Missed(flags, keys, h, key, s - 1))
    requires s > 0 ==> flags[Probe(h, s - 1, |flags|)] != Live || keys[Probe(h, s - 1, |flags|)] != key
    ensures Missed(flags, keys, h, key, s)
  {
    hide Probe;
  }

  // ---------- rehashing: one key array serves the old and the new table ----------

  predicate Held(src: seq<Flag>, dst: seq<Flag>, i: nat) {
    (i < |src| && src[i] == Live) || (i < |dst| && dst[i] == Live)
  }

  ghost predicate Mid<K(!new)>(hash: K -> nat, src: seq<Flag>, dst: seq<Flag>, keys: seq<K>, pos: map<K, nat>) {
    && |src| <= |keys| && 0 < |dst| <= |keys|
    && (forall i :: 0 <= i < |src| && i < |dst| ==> !(src[i] == Live && dst[i] == Live))
    && (forall k :: k in pos ==> pos[k] < |keys| && keys[pos[k]] == k && Held(src, dst, pos[k]))
    && (forall i :: 0 <= i < |keys| && Held(src, dst, i) ==> keys[i] in pos && pos[keys[i]] == i)
    && (forall i :: 0 <= i < |dst| ==> dst[i] != Deleted)
    && (forall i :: 0 <= i < |dst| && dst[i] == Live ==> Reached(dst, hash(keys[i]), i))
  }

  // Take the element in old bucket j out of the table.
  lemma LiftKeeps<K(!new)>(hash: K -> nat, src: seq<Flag>, dst: seq<Flag>, keys: seq<K>, pos: map<K, nat>, j: nat)
    requires Mid(hash, src, dst, keys, pos) && j < |src| && src[j] == Live
    ensures Mid(hash, src[j := Deleted], dst, keys, pos - {keys[j]})
    ensures keys[j] in pos && Lives(src[j := Deleted]) == Lives(src) - 1
  {
    hide Reached, Lives;
    CountUpdate(src, j, Deleted);
    assert Held(src, dst, j);
  }

  // Put a key into the new bucket its probe path ends at.
  lemma PlaceKeeps<K(!new)>(hash: K -> nat, src: seq<Flag>, dst: seq<Flag>, keys: seq<K>, pos: map<K, nat>,
                            i: nat, s: nat, key: K)
    requires Mid(hash, src, dst, keys, pos) && key !in pos
    requires i < |dst| && dst[i] == Empty && PathTo(dst, hash(key), s, i)
    requires i < |src| ==> src[i] != Live
    ensures Mid(hash, src, dst[i := Live], keys[i := key], pos[key := i])
    ensures Lives(dst[i := Live]) == Lives(dst) + 1
  {
    hide Reached, PathTo, Lives;
    CountUpdate(dst, i, Live);
    PathReached(dst, hash(key), s, i);
    var new', keys' := dst[i := Live], keys[i := key];
    forall t | 0 <= t < |dst| && new'[t] == Live ensures Reached(new', hash(keys'[t]), t) {
      FillKeepsPaths(dst, i, Live, hash(keys'[t]), t);
    }
  }

  // The first empty bucket on a probe path.
  method FindEmpty(flags: array<Flag>, h: nat) returns (i: nat, ghost s: nat)
    requires IsPow2(flags.Length) && Used(flags[..]) < flags.Length
    ensures i < flags.Length && flags[i] == Empty && PathTo(flags[..], h, s, i)
  {
    hide Probe, IsPow2, Used;
    var n := flags.Length;
    var step := 0;
    i, s := h % n, 0;
    ProbeNext(h, 0, n);
    while flags[i] != Empty
      invariant s == step < n && i == Probe(h, s, n) && i < n
      invariant Crowded(flags[..], h, s)
      decreases n - step
    {
      StillRoom(flags[..], h, step);
      ProbeNext(h, step, n);
      step := step + 1;
      s := step;
      i := (i + step) % n;
    }
  }

  // Values held by the table in the middle of a rehash.
  ghost predicate Carries<K, V>(vals: seq<V>, pos: map<K, nat>, m: map<K, V>) {
    forall k :: k in pos ==> pos[k] < |vals| && k in m && vals[pos[k]] == m[k]
  }

  /** The kick-out loop: move the element of old bucket j to the new table, displacing old elements
      as it goes.  It ends because every kick leaves one live old bucket fewer, and loses nothing. */
  method Relocate<K(!new), V>(hash: K -> nat, src: array<Flag>, dst: array<Flag>, keys: array<K>, vals: array<V>,
                              j: nat, ghost start: map<K, nat>, ghost m: map<K, V>) returns (ghost pos: map<K, nat>)
    requires src != dst && keys as object != vals && keys.Length == vals.Length
    requires src as object != keys && src as object != vals && dst as object != keys && dst as object != vals
    requires IsPow2(dst.Length) && j < src.Length && src[j] == Live
    requires Mid(hash, src[..], dst[..], keys[..], start) && start.Keys == m.Keys && Carries(vals[..], start, m)
    requires Lives(src[..]) + Lives(dst[..]) < dst.Length
    modifies src, dst, keys, vals
    ensures Mid(hash, src[..], dst[..], keys[..], pos) && pos.Keys == m.Keys && Carries(vals[..], pos, m)
    ensures Lives(src[..]) + Lives(dst[..]) == old(Lives(src[..]) + Lives(dst[..]))
    ensures forall i :: 0 <= i < src.Length && src[i] == Live ==> old(src[i]) == Live
    ensures src[j] != Live
  {
    hide Mid, Lives, IsPow2, PathTo, Used, Carries;
    pos := start;
    ghost var total := Lives(src[..]) + Lives(dst[..]);
    MidFacts(hash, src[..], dst[..], keys[..], pos);
    var key, val;
    key, val, pos := LiftOut(hash, src, dst, keys, vals, j, pos, m);
    var moving := true;
    while moving
      invariant Mid(hash, src[..], dst[..], keys[..], pos) && Carries(vals[..], pos, m)
      invariant moving ==> key !in pos && pos.Keys + {key} == m.Keys && val == m[key]
      invariant !moving ==> pos.Keys == m.Keys
      invariant Lives(src[..]) + Lives(dst[..]) + (if moving then 1 else 0) == total
      invariant forall i :: 0 <= i < src.Length && src[i] == Live ==> old(src[i]) == Live
      invariant src[j] != Live
      decreases moving, Lives(src[..])
    {
      MidFacts(hash, src[..], dst[..], keys[..], pos);
      var i, s := FindEmpty(dst, hash(key));
      if i < src.Length && src[i] == Live {
        key, val, pos := KickOut(hash, src, dst, keys, vals, i, s, key, val, pos, m);
      } else {
        pos := PutAt(hash, src, dst, keys, vals, i, s, key, val, pos, m);
        moving := false;
      }
    }
  }

  // Take an old element out: read it and mark its old bucket deleted.
  method LiftOut<K(!new), V>(hash: K -> nat, src: array<Flag>, dst: array<Flag>, keys: array<K>, vals: array<V>,
                             j: nat, ghost start: map<K, nat>, ghost m: map<K, V>)
    returns (key: K, val: V, ghost pos: map<K, nat>)
    requires src != dst && keys as object != vals && keys.Length == vals.Length
    requires src as object != keys && src as object != vals
    requires Mid(hash, src[..], dst[..], keys[..], start) && Carries(vals[..], start, m)
    requires j < src.Length && src[j] == Live
    modifies src
    ensures key in start && pos == start - {key} && key in m && val == m[key]
    ensures src[..] == old(src[..])[j := Deleted]
    ensures Mid(hash, src[..], dst[..], keys[..], pos) && Carries(vals[..], pos, m)
    ensures Lives(src[..]) == old(Lives(src[..])) - 1
  {
    hide Mid, Lives;
    MidFacts(hash, src[..], dst[..], keys[..], start);
    key, val := keys[j], vals[j];
    LiftKeeps(hash, src[..], dst[..], keys[..], start, j);
    LiftPosition(hash, src[..], dst[..], keys[..], start, j);
    ghost var before := src[..];
    src[j] := Deleted;
    assert src[..] == before[j := Deleted];
    pos := start - {key};
  }

  // Swap the moving element with the old one occupying its bucket.
  method KickOut<K(!new), V>(hash: K -> nat, src: array<Flag>, dst: array<Flag>, keys: array<K>, vals: array<V>,
                             i: nat, ghost s: nat, key: K, val: V, ghost start: map<K, nat>, ghost m: map<K, V>)
    returns (kicked: K, kickedVal: V, ghost pos: map<K, nat>)
    requires src != dst && keys as object != vals && keys.Length == vals.Length
    requires src as object != keys && src as object != vals && dst as object != keys && dst as object != vals
    requires Mid(hash, src[..], dst[..], keys[..], start) && Carries(vals[..], start, m)
    requires key !in start && key in m && val == m[key]
    requires i < dst.Length && dst[i] == Empty && PathTo(dst[..], hash(key), s, i)
    requires i < src.Length && src[i] == Live
    modifies src, dst, keys, vals
    ensures kicked in start && kicked in m && kickedVal == m[kicked] && pos == (start - {kicked})[key := i]
    ensures src[..] == old(src[..])[i := Deleted]
    ensures Mid(hash, src[..], dst[..], keys[..], pos) && Carries(vals[..], pos, m)
    ensures Lives(src[..]) == old(Lives(src[..])) - 1 && Lives(dst[..]) == old(Lives(dst[..])) + 1
  {
    hide Mid, Lives, PathTo;
    kicked, kickedVal, pos := LiftOut(hash, src, dst, keys, vals, i, start, m);
    pos := PutAt(hash, src, dst, keys, vals, i, s, key, val, pos, m);
  }

  // Write a key and its value into an empty new bucket.
  method PutAt<K(!new), V>(hash: K -> nat, src: array<Flag>, dst: array<Flag>, keys: array<K>, vals: array<V>,
                           i: nat, ghost s: nat, key: K, val: V, ghost start: map<K, nat>, ghost m: map<K, V>)
    returns (ghost pos: map<K, nat>)
    requires src != dst && keys as object != vals && keys.Length == vals.Length
    requires src as object != keys && src as object != vals && dst as object != keys && dst as object != vals
    requires Mid(hash, src[..], dst[..], keys[..], start) && Carries(vals[..], start, m)
    requires key !in start && key in m && val == m[key]
    requires i < dst.Length && dst[i] == Empty && PathTo(dst[..], hash(key), s, i)
    requires i < src.Length ==> src[i] != Live
    modifies dst, keys, vals
    ensures pos == start[key := i]
    ensures Mid(hash, src[..], dst[..], keys[..], pos) && Carries(vals[..], pos, m)
    ensures Lives(dst[..]) == old(Lives(dst[..])) + 1
  {
    hide Mid, Lives, PathTo;
    MidFacts(hash, src[..], dst[..], keys[..], start);
    PlaceKeeps(hash, src[..], dst[..], keys[..], start, i, s, key);
    NotThere(hash, src[..], dst[..], keys[..], start, i);
    ghost var n, k := dst[..], keys[..];
    dst[i] := Live;
    keys[i] := key;
    vals[i] := val;
    assert dst[..] == n[i := Live] && keys[..] == k[i := key];
    pos := start[key := i];
  }

  lemma MidFacts<K(!new)>(hash: K -> nat, src: seq<Flag>, dst: seq<Flag>, keys: seq<K>, pos: map<K, nat>)
    requires Mid(hash, src, dst, keys, pos)
    ensures |src| <= |keys| && 0 < |dst| <= |keys|
    ensures Used(dst) == Lives(dst)
  {
    CountBounds(dst);
  }

  lemma LiftPosition<K(!new)>(hash: K -> nat, src: seq<Flag>, dst: seq<Flag>, keys: seq<K>, pos: map<K, nat>, j: nat)
    requires Mid(hash, src, dst, keys, pos) && j < |src| && src[j] == Live
    ensures keys[j] in pos && pos[keys[j]] == j
  {
    assert Held(src, dst, j);
  }

  lemma NotThere<K(!new)>(hash: K -> nat, src: seq<Flag>, dst: seq<Flag>, keys: seq<K>, pos: map<K, nat>, i: nat)
    requires Mid(hash, src, dst, keys, pos) && i < |dst| && dst[i] != Live && (i < |src| ==> src[i] != Live)
    ensures forall k :: k in pos ==> pos[k] != i
  {
  }

  // The outer rehash loop: every live old bucket in turn.
  method RehashAll<K(!new), V>(hash: K -> nat, src: array<Flag>, dst: array<Flag>, keys: array<K>, vals: array<V>,
                               ghost start: map<K, nat>, ghost m: map<K, V>) returns (ghost pos: map<K, nat>)
    requires src != dst && keys as object != vals && keys.Length == vals.Length
    requires src as object != keys && src as object != vals && dst as object != keys && dst as object != vals
    requires IsPow2(dst.Length) && Lives(src[..]) + Lives(dst[..]) < dst.Length
    requires Mid(hash, src[..], dst[..], keys[..], start) && start.Keys == m.Keys && Carries(vals[..], start, m)
    modifies src, dst, keys, vals
    ensures Mid(hash, src[..], dst[..], keys[..], pos) && pos.Keys == m.Keys && Carries(vals[..], pos, m)
    ensures Lives(dst[..]) == old(Lives(src[..]) + Lives(dst[..])) && Lives(src[..]) == 0
  {
    hide Mid, Lives, IsPow2, Carries;
    pos := start;
    ghost var total := Lives(src[..]) + Lives(dst[..]);
    for j := 0 to src.Length
      invariant Mid(hash, src[..], dst[..], keys[..], pos) && pos.Keys == m.Keys && Carries(vals[..], pos, m)
      invariant Lives(src[..]) + Lives(dst[..]) == total
      invariant forall i :: 0 <= i < j ==> src[i] != Live
    {
      if src[j] == Live {
        pos := Relocate(hash, src, dst, keys, vals, j, pos, m);
      }
    }
    CountBounds(src[..]);
  }

  lemma {:induction false} NoLives(flags: seq<Flag>)
    requires Lives(flags) == 0
    ensures forall i :: 0 <= i < |flags| ==> flags[i] != Live
  {
    if flags != [] { NoLives(flags[..|flags| - 1]); }
  }

  // A table together with an empty new one is a rehash about to begin.
  lemma StartMid<K(!new), V>(hash: K -> nat, flags: seq<Flag>, keys: seq<K>, vals: seq<V>, dst: seq<Flag>,
                             ks: seq<K>, vs: seq<V>, pos: map<K, nat>, m: map<K, V>)
    requires |keys| == |flags| == |vals| && Indexed(flags, keys, pos)
    requires 0 < |dst| <= |ks| == |vs| && |flags| <= |ks| && ks[..|flags|] == keys && vs[..|flags|] == vals
    requires forall i :: 0 <= i < |dst| ==> dst[i] == Empty
    requires m == ContentsOf(vals, pos)
    ensures Mid(hash, flags, dst, ks, pos) && Carries(vs, pos, m) && Lives(dst) == 0 && m.Keys == pos.Keys
  {
    hide Reached;
    CountBounds(dst);
    assert forall i :: 0 <= i < |flags| ==> ks[i] == keys[i] && vs[i] == vals[i];
  }

  // A rehash with no live old bucket left is a table.
  lemma FinishTable<K(!new), V>(hash: K -> nat, src: seq<Flag>, dst: seq<Flag>, ks: seq<K>, vs: seq<V>,
                                pos: map<K, nat>, m: map<K, V>)
    requires Mid(hash, src, dst, ks, pos) && Carries(vs, pos, m) && |vs| == |ks| && Lives(src) == 0
    ensures |dst| <= |ks|
    ensures Indexed(dst, ks[..|dst|], pos) && Paths(hash, dst, ks[..|dst|])
    ensures forall k :: k in pos ==> pos[k] < |dst| && k in m && vs[..|dst|][pos[k]] == m[k]
    ensures Used(dst) == Lives(dst)
  {
    hide Reached, Used, Lives;
    MidFacts(hash, src, dst, ks, pos);
    NoLives(src);
    forall i | 0 <= i < |dst| && dst[i] == Live ensures ks[i] in pos && pos[ks[i]] == i {
      assert Held(src, dst, i);
    }
  }

  method Prefix<T(0)>(a: array<T>, n: nat) returns (b: array<T>)
    ensures b.Length == n && fresh(b)
    ensures forall i :: 0 <= i < n && i < a.Length ==> b[i] == a[i]
  {
    b := new T[n];
    var k := if n < a.Length then n else a.Length;
    for i := 0 to k
      invariant forall j :: 0 <= j < i ==> b[j] == a[j]
    {
      b[i] := a[i];
    }
  }

  lemma RoomLeft(n: nat)
    ensures n >= 4 ==> 0 < UpperBound(n) < n
  {
  }

  lemma RoundUpFacts(n: nat)
    ensures IsPow2(RoundUp(n)) && RoundUp(n) >= 4 && UpperBound(RoundUp(n)) < RoundUp(n)
  {
    assert IsPow2(4) by { assert IsPow2(2) by { assert IsPow2(1); } }
    RoundUpPow2(4, n);
  }

  // The two sizes kh_put asks for, and that they suffice.
  lemma ExpandSizes(n: nat, size: nat)
    requires n == 0 || (n >= 4 && IsPow2(n))
    requires size <= (if n == 0 then 0 else UpperBound(n))
    ensures n > 2 * size ==> RoundUp(n - 1) == n && size < UpperBound(n)
    ensures size < UpperBound(RoundUp(n + 1))
  {
    assert IsPow2(4) by { assert IsPow2(2) by { assert IsPow2(1); } }
    if n >= 4 { RoundUpNear(4, n); }
  }

  lemma SameSize<K, V>(p: map<K, nat>, q: map<K, nat>, m: map<K, V>)
    requires p.Keys == m.Keys == q.Keys
    ensures |p| == |q|
  {
    assert |p| == |p.Keys| && |q| == |q.Keys|;
  }

  // ---------- the table ----------

  // One bucket always stays empty: at most upperBound of the n buckets are used.
  ghost predicate TableInv<K(!new)>(hash: K -> nat, flags: seq<Flag>, keys: seq<K>, pos: map<K, nat>,
                                    size: nat, occupied: nat, upperBound: nat) {
    && |keys| == |flags|
    && (|flags| == 0 || (IsPow2(|flags|) && |flags| >= 4))
    && upperBound == (if |flags| == 0 then 0 else UpperBound(|flags|))
    && Indexed(flags, keys, pos)
    && Paths(hash, flags, keys)
    && size == |pos| == Lives(flags)
    && occupied == Used(flags) <= upperBound
  }

  // The finite map a table stands for.
  ghost function ContentsOf<K, V>(vals: seq<V>, pos: map<K, nat>): map<K, V> {
    map k | k in pos && pos[k] < |vals| :: vals[pos[k]]
  }

  lemma TableFacts<K(!new)>(hash: K -> nat, flags: seq<Flag>, keys: seq<K>, pos: map<K, nat>,
                            size: nat, occupied: nat, upperBound: nat)
    requires TableInv(hash, flags, keys, pos, size, occupied, upperBound)
    ensures |keys| == |flags| && Indexed(flags, keys, pos) && Paths(hash, flags, keys) && size == |pos| == Lives(flags)
    ensures |flags| > 0 ==> IsPow2(|flags|) && Used(flags) < |flags|
  {
    hide Paths, Used, Lives, Indexed;
    RoomLeft(|flags|);
  }

  lemma ContentsAt<K, V>(flags: seq<Flag>, keys: seq<K>, vals: seq<V>, pos: map<K, nat>, key: K)
    requires |keys| == |vals| == |flags| && Indexed(flags, keys, pos)
    ensures key in ContentsOf(vals, pos) <==> key in pos
    ensures key in pos ==> pos[key] < |flags| && flags[pos[key]] == Live && keys[pos[key]] == key
    ensures key in pos ==> ContentsOf(vals, pos)[key] == vals[pos[key]]
  {
  }

  lemma ContentsInsert<K, V>(vals: seq<V>, pos: map<K, nat>, key: K, x: nat)
    requires x < |vals|
    ensures ContentsOf(vals, pos[key := x]) == ContentsOf(vals, pos)[key := vals[x]]
  {
  }

  lemma ContentsDelete<K, V>(vals: seq<V>, pos: map<K, nat>, key: K)
    ensures ContentsOf(vals, pos - {key}) == ContentsOf(vals, pos) - {key}
  {
  }

  lemma ContentsWrite<K, V>(flags: seq<Flag>, keys: seq<K>, vals: seq<V>, pos: map<K, nat>, key: K, val: V)
    requires |keys| == |vals| == |flags| && Indexed(flags, keys, pos) && key in pos
    ensures ContentsOf(vals[pos[key] := val], pos) == ContentsOf(vals, pos)[key := val]
  {
  }

  datatype TableOp<K, V> = Inserting(key: K, val: V) | Removing(key: K) | Resizing(requested: nat)

  function MapRun<K, V>(m: map<K, V>, ops: seq<TableOp<K, V>>): map<K, V> {
    if ops == [] then m else
    var before := MapRun(m, ops[..|ops| - 1]);
    match ops[|ops| - 1]
    case Inserting(k, v) => before[k := v]
    case Removing(k) => before - {k}
    case Resizing(_) => before
  }

  class Table<K(==, 0, !new), V(0)> {
    const hash: K -> nat
    var flags: array<Flag>
    var keys: array<K>
    var vals: array<V>
    var size: nat
    var occupied: nat
    var upperBound: nat
    ghost var pos: map<K, nat>

    ghost predicate Valid()
      reads this, flags, keys, vals
    {
      && flags as object != keys && flags as object != vals && keys as object != vals
      && keys.Length == vals.Length == flags.Length
      && TableInv(hash, flags[..], keys[..], pos, size, occupied, upperBound)
    }

    ghost function Contents(): map<K, V>
      reads this, vals
    {
      ContentsOf(vals[..], pos)
    }

    ghost function Buffers(): set<object>
      reads this
    {
      {this, flags, keys, vals}
    }

    constructor (hash: K -> nat)
      ensures Valid() && fresh(Buffers()) && Contents() == map[] && this.hash == hash
    {
      this.hash := hash;
      flags, keys, vals := new Flag[0], new K[0], new V[0];
      size, occupied, upperBound, pos := 0, 0, 0, map[];
    }

    ghost predicate FoundAt(key: K, x: nat)
      reads this, flags, keys, vals
    {
      && x < flags.Length <= keys.Length && x < vals.Length
      && flags[x] == Live && keys[x] == key
      && key in pos && pos[key] == x
    }

    /** kh_get: the bucket of a present key, n_buckets for an absent one. */
    method Get(key: K) returns (x: nat)
      requires Valid()
      ensures key in Contents() ==> FoundAt(key, x) && vals[x] == Contents()[key]
      ensures key !in Contents() ==> x == flags.Length
    {
      hide Probe, IsPow2, Used, Lives, UpperBound, Reached, TableInv, ContentsOf, Paths, Crowded, Indexed, Missed;
      TableFacts(hash, flags[..], keys[..], pos, size, occupied, upperBound);
      ContentsAt(flags[..], keys[..], vals[..], pos, key);
      var n := flags.Length;
      if n == 0 {
        return 0;
      }
      var h := hash(key);
      var i, step := h % n, 0;
      ProbeNext(h, 0, n);
      NothingProbed(flags[..], h);
      MissedNext(flags[..], keys[..], h, key, 0);
      while flags[i] != Empty && (flags[i] == Deleted || keys[i] != key)
        invariant step < n && i == Probe(h, step, n) && i < n
        invariant Crowded(flags[..], h, step)
        invariant Missed(flags[..], keys[..], h, key, step)
        decreases n - step
      {
        StillRoom(flags[..], h, step);
        MissedNext(flags[..], keys[..], h, key, step + 1);
        ProbeNext(h, step, n);
        step := step + 1;
        i := (i + step) % n;
        // The source also stops when it is back at the first bucket; that never happens this early.
        assert i != h % n by { ProbesDistinct(h, 0, step, n); }
      }
      if flags[i] == Empty {
        SearchMisses(hash, flags[..], keys[..], pos, key, step);
        x := n;
      } else {
        LiveKey(flags[..], keys[..], pos, i);
        x := i;
      }
    }

    // The bucket kh_put chooses: the key's own, else the last deleted one passed, else the empty one.
    method FindSlot(key: K) returns (x: nat, ghost s: nat)
      requires Valid() && flags.Length > 0
      ensures key in pos ==> FoundAt(key, x)
      ensures key !in pos ==> x < flags.Length && flags[x] != Live && PathTo(flags[..], hash(key), s, x)
    {
      hide Probe, IsPow2, Used, Lives, UpperBound, Reached, TableInv, ContentsOf, Paths, Crowded, PathTo;
      hide Indexed, Missed;
      TableFacts(hash, flags[..], keys[..], pos, size, occupied, upperBound);
      var n := flags.Length;
      var h := hash(key);
      var i, step := h % n, 0;
      var site: nat := n;
      s := 0;
      ProbeNext(h, 0, n);
      NothingProbed(flags[..], h);
      MissedNext(flags[..], keys[..], h, key, 0);
      while flags[i] != Empty && (flags[i] == Deleted || keys[i] != key)
        invariant step < n && i == Probe(h, step, n) && i < n
        invariant Crowded(flags[..], h, step)
        invariant site < n ==> flags[site] == Deleted && PathTo(flags[..], h, s, site)
        invariant Missed(flags[..], keys[..], h, key, step)
        decreases n - step
      {
        if flags[i] == Deleted {
          site, s := i, step;
          PathHere(flags[..], h, step);
        }
        StillRoom(flags[..], h, step);
        MissedNext(flags[..], keys[..], h, key, step + 1);
        ProbeNext(h, step, n);
        step := step + 1;
        i := (i + step) % n;
        assert i != h % n by { ProbesDistinct(h, 0, step, n); }
      }
      if flags[i] == Empty {
        SearchMisses(hash, flags[..], keys[..], pos, key, step);
        if site < n {
          x := site;
        } else {
          x, s := i, step;
          PathHere(flags[..], h, step);
        }
      } else {
        LiveKey(flags[..], keys[..], pos, i);
        x := i;
      }
    }

    /** kh_put: afterwards the key is in the table; nothing else changes. */
    method Put(key: K) returns (x: nat, ret: nat)
      requires Valid()
      modifies Buffers()
      ensures Valid() && fresh(Buffers() - old(Buffers())) && FoundAt(key, x)
      ensures Contents() == if key in old(Contents()) then old(Contents()) else old(Contents())[key := vals[x]]
      ensures ret == 0 <==> key in old(Contents())
    {
      hide TableInv, ContentsOf, Indexed, Paths, PathTo;
      if occupied >= upperBound {
        Expand();
      }
      TableFacts(hash, flags[..], keys[..], pos, size, occupied, upperBound);
      UsableTable(hash, flags[..], keys[..], pos, size, occupied, upperBound);
      ContentsAt(flags[..], keys[..], vals[..], pos, key);
      var slot, s := FindSlot(key);
      x := slot;
      if flags[x] == Live {
        ret := 0;
      } else {
        ret := if flags[x] == Empty then 1 else 2;
        Claim(key, x, s);
      }
    }

    // Write a new key into a free bucket.
    method Claim(key: K, x: nat, ghost s: nat)
      requires Valid() && x < flags.Length && flags[x] != Live && key !in pos
      requires PathTo(flags[..], hash(key), s, x) && occupied < upperBound
      modifies this`size, this`occupied, this`pos, flags, keys
      ensures Valid() && FoundAt(key, x)
      ensures Contents() == old(Contents())[key := vals[x]]
    {
      hide TableInv, ContentsOf, Indexed, Paths, PathTo;
      ghost var f, ks := flags[..], keys[..];
      ContentsInsert(vals[..], pos, key, x);
      ClaimKeeps(hash, f, ks, pos, size, occupied, upperBound, x, s, key);
      if flags[x] == Empty {
        occupied := occupied + 1;
      }
      keys[x] := key;
      flags[x] := Live;
      assert flags[..] == f[x := Live] && keys[..] == ks[x := key];
      size := size + 1;
      pos := pos[key := x];
    }

    /** kh_del: exactly the element in that bucket goes. */
    method Delete(x: nat)
      requires Valid()
      modifies this`size, this`pos, flags
      ensures Valid()
      ensures Contents() == if x < flags.Length && old(flags[x]) == Live then old(Contents()) - {keys[x]}
                            else old(Contents())
    {
      hide TableInv, ContentsOf, Indexed, Paths;
      if x < flags.Length && flags[x] == Live {
        ghost var f := flags[..];
        ContentsDelete(vals[..], pos, keys[x]);
        DropKeeps(hash, f, keys[..], pos, size, occupied, upperBound, x);
        flags[x] := Deleted;
        assert flags[..] == f[x := Deleted];
        size := size - 1;
        pos := pos - {keys[x]};
      }
    }

    // The resize at the head of kh_put: clear deleted buckets in place, or double.
    method Expand()
      requires Valid() && occupied >= upperBound
      modifies Buffers()
      ensures Valid() && fresh(Buffers() - old(Buffers())) && Contents() == old(Contents())
      ensures flags.Length > 0 && occupied < upperBound
    {
      hide TableInv, ContentsOf, RoundUp, UpperBound;
      var n := flags.Length;
      SizesFit(hash, flags[..], keys[..], pos, size, occupied, upperBound);
      if n > 2 * size {
        Resize(n - 1);
      } else {
        Resize(n + 1);
      }
    }

    /** kh_resize: for any requested size, either the table is left alone because it is too small for
        its elements, or every element is rehashed into the new size and deleted buckets vanish. */
    method Resize(requested: nat)
      requires Valid()
      modifies Buffers()
      ensures Valid() && fresh(Buffers() - old(Buffers())) && Contents() == old(Contents()) && size == old(size)
      ensures old(size) >= UpperBound(RoundUp(requested)) ==>
                flags.Length == old(flags.Length) && occupied == old(occupied) && upperBound == old(upperBound)
      ensures old(size) < UpperBound(RoundUp(requested)) ==>
                && flags.Length == RoundUp(requested) > 0 && occupied == size
                && upperBound == UpperBound(RoundUp(requested))
    {
      hide TableInv, ContentsOf, RoundUp, UpperBound, IsPow2, Mid, Carries, Lives, Used, Indexed, Paths;
      var n := RoundUp(requested);
      RoundUpFacts(requested);
      if size >= UpperBound(n) {
        return;
      }
      RehashInto(n);
    }

    method RehashInto(n: nat)
      requires Valid() && IsPow2(n) && n >= 4 && size < UpperBound(n) < n
      modifies Buffers()
      ensures Valid() && fresh(Buffers() - old(Buffers())) && Contents() == old(Contents()) && size == old(size)
      ensures flags.Length == n && occupied == size && upperBound == UpperBound(n)
    {
      hide TableInv, ContentsOf, UpperBound, IsPow2;
      var dst, ks, vs, p := Rebuilt(n);
      flags, keys, vals, pos := dst, ks, vs, p;
      occupied, upperBound := size, UpperBound(n);
    }

    // Build the new table, using the old flags as working space and the key array in place.
    method Rebuilt(n: nat) returns (dst: array<Flag>, ks: array<K>, vs: array<V>, ghost p: map<K, nat>)
      requires Valid() && IsPow2(n) && n >= 4 && size < UpperBound(n) < n
      modifies flags, keys, vals
      ensures dst.Length == ks.Length == vs.Length == n && fresh(dst) && ks as object != vs
      ensures (ks == keys && vs == vals) || (fresh(ks) && fresh(vs))
      ensures dst as object != ks && dst as object != vs
      ensures TableInv(hash, dst[..], ks[..], p, size, size, UpperBound(n))
      ensures ContentsOf(vs[..], p) == old(Contents())
    {
      hide TableInv, ContentsOf, UpperBound, IsPow2, Mid, Carries, Lives, Used, Indexed, Paths;
      ghost var m := Contents();
      TableFacts(hash, flags[..], keys[..], pos, size, occupied, upperBound);
      dst := new Flag[n](_ => Empty);
      ks, vs := Widen(n);
      StartMid(hash, flags[..], keys[..], vals[..], dst[..], ks[..], vs[..], pos, m);
      p := RehashAll(hash, flags, dst, ks, vs, pos, m);
      SameSize(p, pos, m);
      Rehashed(hash, flags[..], dst[..], ks[..], vs[..], p, m, size);
      ks, vs := Narrow(ks, vs, n);
    }

    /** BalanceSheet_InsertLocked and TxMempool_Insert: put the key, then write its value. */
    method Insert(key: K, val: V)
      requires Valid()
      modifies Buffers()
      ensures Valid() && fresh(Buffers() - old(Buffers()))
      ensures Contents() == old(Contents())[key := val]
    {
      hide TableInv, ContentsOf;
      var x, _ := Put(key);
      ghost var before := vals[..];
      TableFacts(hash, flags[..], keys[..], pos, size, occupied, upperBound);
      ContentsWrite(flags[..], keys[..], before, pos, key, val);
      vals[x] := val;
      assert vals[..] == before[x := val];
    }

    /** BalanceSheet_Lookup. */
    method Lookup(key: K) returns (r: Option<V>)
      requires Valid()
      ensures r == if key in Contents() then Some(Contents()[key]) else None
    {
      hide TableInv, ContentsOf;
      var x := Get(key);
      if x != flags.Length {
        r := Some(vals[x]);
      } else {
        r := None;
      }
    }

    /** TxMempool_Remove. */
    method Remove(key: K) returns (removed: bool)
      requires Valid()
      modifies Buffers()
      ensures Valid() && fresh(Buffers() - old(Buffers()))
      ensures removed <==> key in old(Contents())
      ensures Contents() == old(Contents()) - {key}
    {
      hide TableInv, ContentsOf;
      var x := Get(key);
      removed := x != flags.Length;
      Delete(x);
    }

    /** After any sequence of inserts, removals and resizes the table holds exactly what a finite map
        driven by the same operations holds. */
    method Perform(ops: seq<TableOp<K, V>>)
      requires Valid()
      modifies Buffers()
      ensures Valid() && fresh(Buffers() - old(Buffers()))
      ensures Contents() == MapRun(old(Contents()), ops)
    {
      hide TableInv, ContentsOf;
      for i := 0 to |ops|
        invariant Valid() && fresh(Buffers() - old(Buffers()))
        invariant Contents() == MapRun(old(Contents()), ops[..i])
      {
        assert ops[..i + 1][..i] == ops[..i];
        match ops[i]
        case Inserting(k, v) => Insert(k, v);
        case Removing(k) => var _ := Remove(k);
        case Resizing(n) => Resize(n);
      }
      assert ops[..|ops|] == ops;
    }

    // Reallocate keys and values when the table grows; keep using them when it does not.
    method Widen(n: nat) returns (ks: array<K>, vs: array<V>)
      requires Valid()
      ensures ks.Length == vs.Length >= n && ks.Length >= flags.Length
      ensures ks[..flags.Length] == keys[..] && vs[..flags.Length] == vals[..]
      ensures (ks == keys && vs == vals) || (fresh(ks) && fresh(vs))
      ensures ks as object != vs
      ensures flags.Length >= n ==> ks.Length == flags.Length
    {
      hide TableInv;
      ks, vs := keys, vals;
      if flags.Length < n {
        ks := Prefix(keys, n);
        vs := Prefix(vals, n);
      }
    }
  }

  method Narrow<K(0), V(0)>(keys: array<K>, vals: array<V>, n: nat) returns (ks: array<K>, vs: array<V>)
    requires keys.Length == vals.Length >= n && keys as object != vals
    ensures ks.Length == vs.Length == n && ks as object != vs
    ensures ks[..] == keys[..n] && vs[..] == vals[..n]
    ensures (ks == keys && vs == vals) || (fresh(ks) && fresh(vs))
  {
    ks, vs := keys, vals;
    if keys.Length > n {
      ks := Prefix(keys, n);
      vs := Prefix(vals, n);
    }
  }

  lemma NothingProbed(flags: seq<Flag>, h: nat)
    requires |flags| > 0
    ensures Crowded(flags, h, 0)
  {
  }

  lemma PathHere(flags: seq<Flag>, h: nat, s: nat)
    requires s < |flags| && Crowded(flags, h, s)
    ensures PathTo(flags, h, s, Probe(h, s, |flags|))
  {
  }

  lemma UsableTable<K(!new)>(hash: K -> nat, flags: seq<Flag>, keys: seq<K>, pos: map<K, nat>,
                             size: nat, occupied: nat, upperBound: nat)
    requires TableInv(hash, flags, keys, pos, size, occupied, upperBound) && occupied < upperBound
    ensures |flags| > 0
  {
  }

  lemma SizesFit<K(!new)>(hash: K -> nat, flags: seq<Flag>, keys: seq<K>, pos: map<K, nat>,
                          size: nat, occupied: nat, upperBound: nat)
    requires TableInv(hash, flags, keys, pos, size, occupied, upperBound)
    ensures |flags| > 2 * size ==> RoundUp(|flags| - 1) == |flags| && size < UpperBound(|flags|)
    ensures size < UpperBound(RoundUp(|flags| + 1))
  {
    hide Indexed, Paths, Used, Lives;
    CountBounds(flags);
    ExpandSizes(|flags|, size);
  }

  lemma ClaimKeeps<K(!new)>(hash: K -> nat, flags: seq<Flag>, keys: seq<K>, pos: map<K, nat>,
                            size: nat, occupied: nat, upperBound: nat, x: nat, s: nat, key: K)
    requires TableInv(hash, flags, keys, pos, size, occupied, upperBound) && occupied < upperBound
    requires x < |flags| && flags[x] != Live && key !in pos && PathTo(flags, hash(key), s, x)
    ensures TableInv(hash, flags[x := Live], keys[x := key], pos[key := x], size + 1,
                     if flags[x] == Empty then occupied + 1 else occupied, upperBound)
  {
    hide Indexed, Paths, Used, Lives, UpperBound, IsPow2, PathTo;
    InsertKeeps(hash, flags, keys, pos, x, s, key);
    CountUpdate(flags, x, Live);
  }

  lemma DropKeeps<K(!new)>(hash: K -> nat, flags: seq<Flag>, keys: seq<K>, pos: map<K, nat>,
                           size: nat, occupied: nat, upperBound: nat, x: nat)
    requires TableInv(hash, flags, keys, pos, size, occupied, upperBound) && x < |flags| && flags[x] == Live
    ensures size > 0 && keys[x] in pos && pos[keys[x]] == x
    ensures TableInv(hash, flags[x := Deleted], keys, pos - {keys[x]}, size - 1, occupied, upperBound)
  {
    LiveKey(flags, keys, pos, x);
    hide Indexed, Paths, Used, Lives, UpperBound, IsPow2;
    DeleteKeeps(hash, flags, keys, pos, x);
    CountUpdate(flags, x, Deleted);
    assert |pos - {keys[x]}| == |pos| - 1 by { assert (pos - {keys[x]}).Keys == pos.Keys - {keys[x]}; }
  }

  lemma LiveKey<K>(flags: seq<Flag>, keys: seq<K>, pos: map<K, nat>, x: nat)
    requires |keys| == |flags| && Indexed(flags, keys, pos) && x < |flags| && flags[x] == Live
    ensures keys[x] in pos && pos[keys[x]] == x
  {
  }

  // A finished rehash, cut to the new size, is a valid table with the same contents.
  lemma Rehashed<K(!new), V>(hash: K -> nat, src: seq<Flag>, dst: seq<Flag>, ks: seq<K>, vs: seq<V>,
                             pos: map<K, nat>, m: map<K, V>, size: nat)
    requires Mid(hash, src, dst, ks, pos) && Carries(vs, pos, m) && |vs| == |ks| && pos.Keys == m.Keys
    requires Lives(src) == 0 && Lives(dst) == size == |pos|
    requires IsPow2(|dst|) && |dst| >= 4 && size < UpperBound(|dst|)
    ensures |dst| <= |ks|
    ensures TableInv(hash, dst, ks[..|dst|], pos, size, size, UpperBound(|dst|))
    ensures ContentsOf(vs[..|dst|], pos) == m
  {
    hide Mid, Indexed, Paths, Used, Lives, UpperBound, IsPow2, Carries;
    FinishTable(hash, src, dst, ks, vs, pos, m);
  }
}
