/** The two ways of reducing puts and deletes to what survives. */
module Replay {
  import opened Batch
  import opened Bytes
  import opened Wrappers

  datatype Kv = Kv(key: bytes, value: bytes)

  // --- scan: one final value a key ---

  function ScanStep(s: map<bytes, bytes>, e: Entry): map<bytes, bytes> {
    match e
    case Put(k, v) => s[k := v]
    case Del(k) => s - {k}
  }

  /** The last write of each key, and nothing where that was a delete. */
  function LastWrites(es: seq<Entry>): map<bytes, bytes> {
    if es == [] then map[] else ScanStep(LastWrites(es[..|es| - 1]), es[|es| - 1])
  }

  /** A put of a key that was absent: the moment the key joins the order. */
  predicate Appears(es: seq<Entry>, i: nat)
    requires i < |es|
  {
    es[i].Put? && es[i].key !in LastWrites(es[..i])
  }

  function Order(es: seq<Entry>): (order: seq<bytes>) {
    if es == [] then []
    else
      var n := |es| - 1;
      Order(es[..n]) + if Appears(es, n) then [es[n].key] else []
  }

  /** `[(k, surviving[k]) for k in order if k in surviving]` */
  function Survivors(order: seq<bytes>, m: map<bytes, bytes>): seq<Kv> {
    if order == [] then []
    else
      (if order[0] in m then [Kv(order[0], m[order[0]])] else []) + Survivors(order[1..], m)
  }

  function ScanSpec(es: seq<Entry>): seq<Kv> {
    Survivors(Order(es), LastWrites(es))
  }

  method Scan(es: seq<Entry>) returns (out: seq<Kv>)
    ensures out == ScanSpec(es)
  {
    var surviving: map<bytes, bytes> := map[];
    var order: seq<bytes> := [];
    for i := 0 to |es|
      invariant surviving == LastWrites(es[..i])
      invariant order == Order(es[..i])
    {
      assert es[..i + 1][..i] == es[..i];
      if es[i].Del? {
        surviving := surviving - {es[i].key};
        continue;
      }
      if es[i].key !in surviving {
        order := order + [es[i].key];
      }
      surviving := surviving[es[i].key := es[i].value];
    }
    assert es[..|es|] == es;
    out := [];
    hide Survivors;
    assert order[0..] == order;
    for i := 0 to |order|
      invariant ScanSpec(es) == out + Survivors(order[i..], surviving)
    {
      if order[i] in surviving {
        out := out + [Kv(order[i], surviving[order[i]])];
      }
    }
    assert order[|order|..] == [];
  }

  // --- what scan means ---

  function Times(xs: seq<bytes>, k: bytes): nat {
    if xs == [] then 0 else (if xs[0] == k then 1 else 0) + Times(xs[1..], k)
  }

  function Copies(kvs: seq<Kv>, kv: Kv): nat {
    if kvs == [] then 0 else (if kvs[0] == kv then 1 else 0) + Copies(kvs[1..], kv)
  }

  lemma {:induction false} CopiesSurvive(order: seq<bytes>, m: map<bytes, bytes>, kv: Kv)
    ensures Copies(Survivors(order, m), kv) ==
      if kv.key in m && m[kv.key] == kv.value then Times(order, kv.key) else 0
  {
    if order != [] {
      var rest := Survivors(order[1..], m);
      CopiesSurvive(order[1..], m, kv);
      if order[0] in m {
        assert Survivors(order, m)[1..] == rest;
      } else {
        assert Survivors(order, m) == rest;
      }
    }
  }

  lemma {:induction false} TimesAppend(xs: seq<bytes>, x: bytes, k: bytes)
    ensures Times(xs + [x], k) == Times(xs, k) + if x == k then 1 else 0
  {
    if xs != [] {
      assert (xs + [x])[1..] == xs[1..] + [x];
      TimesAppend(xs[1..], x, k);
    } else {
      assert (xs + [x])[1..] == [];
    }
  }

  /** How often key `k` went from absent to present. */
  function Arrivals(es: seq<Entry>, k: bytes): nat {
    if es == [] then 0
    else
      var n := |es| - 1;
      Arrivals(es[..n], k) + if Appears(es, n) && es[n].key == k then 1 else 0
  }

  lemma {:induction false} OrderCountsArrivals(es: seq<Entry>, k: bytes)
    ensures Times(Order(es), k) == Arrivals(es, k)
    decreases |es|
  {
    if es != [] {
      var n := |es| - 1;
      OrderCountsArrivals(es[..n], k);
      if Appears(es, n) {
        TimesAppend(Order(es[..n]), es[n].key, k);
      } else {
        assert Order(es) == Order(es[..n]) + [];
        assert Order(es[..n]) + [] == Order(es[..n]);
      }
    }
  }

  lemma {:induction false} PresentArrived(es: seq<Entry>, k: bytes)
    ensures k in LastWrites(es) ==> Arrivals(es, k) > 0
    decreases |es|
  {
    if es != [] {
      PresentArrived(es[..|es| - 1], k);
    }
  }

  /** Exactly what `scan` returns: each surviving pair as many times as its key
      arrived, and nothing else. */
  lemma ScanCounts(es: seq<Entry>, kv: Kv)
    ensures Copies(ScanSpec(es), kv) ==
      if kv.key in LastWrites(es) && LastWrites(es)[kv.key] == kv.value then Arrivals(es, kv.key) else 0
  {
    CopiesSurvive(Order(es), LastWrites(es), kv);
    OrderCountsArrivals(es, kv.key);
  }

  lemma {:induction false} InMeansCopies(kvs: seq<Kv>, kv: Kv)
    ensures kv in kvs <==> Copies(kvs, kv) > 0
  {
    if kvs != [] {
      InMeansCopies(kvs[1..], kv);
      assert kv in kvs <==> kv == kvs[0] || kv in kvs[1..];
    }
  }

  /** As a set of pairs, `scan` is the last-write-wins map. */
  lemma ScanIsLastWrites(es: seq<Entry>, kv: Kv)
    ensures kv in ScanSpec(es) <==> kv.key in LastWrites(es) && LastWrites(es)[kv.key] == kv.value
  {
    ScanCounts(es, kv);
    InMeansCopies(ScanSpec(es), kv);
    PresentArrived(es, kv.key);
  }

  /** The entry at `i` puts `v` under `k`, and nothing later writes or deletes `k`. */
  ghost predicate LastWriteAt(es: seq<Entry>, i: int, k: bytes, v: bytes) {
    0 <= i < |es| && es[i] == Put(k, v) && forall j :: i < j < |es| ==> es[j].key != k
  }

  /** The map is the last writes: a key has a value exactly when that was put last. */
  lemma {:induction false} LastWritesAre(es: seq<Entry>, k: bytes, v: bytes)
    ensures k in LastWrites(es) && LastWrites(es)[k] == v <==> exists i :: LastWriteAt(es, i, k, v)
    decreases |es|
  {
    if es != [] {
      var n := |es| - 1;
      LastWritesAre(es[..n], k, v);
      forall i | 0 <= i < n
        ensures LastWriteAt(es, i, k, v) <==> LastWriteAt(es[..n], i, k, v) && es[n].key != k
      {
      }
      if es[n] == Put(k, v) {
        assert LastWriteAt(es, n, k, v);
      } else if k in LastWrites(es) && LastWrites(es)[k] == v {
        var i :| LastWriteAt(es[..n], i, k, v);
        assert LastWriteAt(es, i, k, v);
      }
    }
  }

  /** Somewhere `b` stands behind `a`. */
  ghost predicate Follows(keys: seq<bytes>, a: bytes, b: bytes) {
    exists p, q :: 0 <= p < q < |keys| && keys[p] == a && keys[q] == b
  }

  lemma FollowsMore(keys: seq<bytes>, more: seq<bytes>, a: bytes, b: bytes)
    ensures Follows(keys, a, b) ==> Follows(keys + more, a, b)
    ensures Follows(keys, a, b) ==> Follows(more + keys, a, b)
    ensures a in keys && b in more ==> Follows(keys + more, a, b)
  {
    if Follows(keys, a, b) {
      var p, q :| 0 <= p < q < |keys| && keys[p] == a && keys[q] == b;
      assert (keys + more)[p] == a && (keys + more)[q] == b;
      assert (more + keys)[|more| + p] == a && (more + keys)[|more| + q] == b;
    }
    if a in keys && b in more {
      var p :| 0 <= p < |keys| && keys[p] == a;
      var q :| 0 <= q < |more| && more[q] == b;
      assert (keys + more)[p] == a && (keys + more)[|keys| + q] == b;
    }
  }

  lemma {:induction false} OrderHas(es: seq<Entry>, i: nat)
    requires i < |es| && Appears(es, i)
    ensures es[i].key in Order(es)
    decreases |es|
  {
    var n := |es| - 1;
    if i < n {
      assert es[..n][..i] == es[..i];
      OrderHas(es[..n], i);
    }
  }

  lemma {:induction false} OrderFollows(es: seq<Entry>, i: nat, j: nat)
    requires i < j < |es| && Appears(es, i) && Appears(es, j)
    ensures Follows(Order(es), es[i].key, es[j].key)
    decreases |es|
  {
    hide LastWrites, Follows;
    var n := |es| - 1;
    assert es[..n][..i] == es[..i];
    var last := if Appears(es, n) then [es[n].key] else [];
    FollowsMore(Order(es[..n]), last, es[i].key, es[j].key);
    if j < n {
      assert es[..n][..j] == es[..j];
      OrderFollows(es[..n], i, j);
    } else {
      OrderHas(es[..n], i);
    }
  }

  function KeysOf(kvs: seq<Kv>): seq<bytes> {
    if kvs == [] then [] else [kvs[0].key] + KeysOf(kvs[1..])
  }

  lemma {:induction false} SurvivorsFollow(order: seq<bytes>, m: map<bytes, bytes>, a: bytes, b: bytes)
    requires a in m && b in m
    ensures a in KeysOf(Survivors(order, m)) <==> a in order
    ensures b in KeysOf(Survivors(order, m)) <==> b in order
    ensures Follows(order, a, b) ==> Follows(KeysOf(Survivors(order, m)), a, b)
  {
    if order != [] {
      var rest := Survivors(order[1..], m);
      SurvivorsFollow(order[1..], m, a, b);
      var head := if order[0] in m then [order[0]] else [];
      assert KeysOf(Survivors(order, m)) == head + KeysOf(rest) by {
        if order[0] in m { assert Survivors(order, m)[1..] == rest; } else { assert Survivors(order, m) == rest; }
      }
      FollowsMore(head, KeysOf(rest), a, b);
      FollowsMore(KeysOf(rest), head, a, b);
      if Follows(order, a, b) {
        var p, q :| 0 <= p < q < |order| && order[p] == a && order[q] == b;
        assert q > 0 && order[1..][q - 1] == b;
        if p > 0 {
          assert order[1..][p - 1] == a;
          assert Follows(order[1..], a, b);
        }
      }
    }
  }

  /** The surviving pairs come in the order in which their keys first arrived. */
  lemma ScanKeepsOrder(es: seq<Entry>, i: nat, j: nat)
    requires i < j < |es| && Appears(es, i) && Appears(es, j)
    requires es[i].key in LastWrites(es) && es[j].key in LastWrites(es)
    ensures Follows(KeysOf(ScanSpec(es)), es[i].key, es[j].key)
  {
    hide Follows, Appears, Order, LastWrites, Survivors;
    OrderFollows(es, i, j);
    SurvivorsFollow(Order(es), LastWrites(es), es[i].key, es[j].key);
  }

  ghost predicate OnePerKey(kvs: seq<Kv>) {
    forall i, j :: 0 <= i < j < |kvs| ==> kvs[i].key != kvs[j].key
  }

  predicate PutOf(es: seq<Entry>, i: int, k: bytes) {
    0 <= i < |es| && es[i].Put? && es[i].key == k
  }

  predicate DelOf(es: seq<Entry>, j: int, k: bytes) {
    0 <= j < |es| && es[j] == Del(k)
  }

  /** Key `k` was put, deleted and put again. */
  ghost predicate Returns(es: seq<Entry>, k: bytes) {
    exists i, j, l :: i < j < l && PutOf(es, i, k) && DelOf(es, j, k) && PutOf(es, l, k)
  }

  lemma {:induction false} ArrivalsGrow(es: seq<Entry>, j: nat, k: bytes)
    requires j <= |es|
    ensures Arrivals(es[..j], k) <= Arrivals(es, k)
    decreases |es|
  {
    if j == |es| {
      assert es[..j] == es;
    } else {
      assert es[..|es| - 1][..j] == es[..j];
      ArrivalsGrow(es[..|es| - 1], j, k);
    }
  }

  lemma {:induction false} PutArrives(es: seq<Entry>, i: nat, k: bytes)
    requires PutOf(es, i, k)
    ensures Arrivals(es, k) >= 1
    decreases |es|
  {
    var n := |es| - 1;
    if i < n {
      PutArrives(es[..n], i, k);
    } else {
      PresentArrived(es[..n], k);
    }
  }

  lemma {:induction false} PresentWasPut(es: seq<Entry>, j: nat, k: bytes) returns (m: nat)
    requires j < |es| && es[j] == Del(k) && k in LastWrites(es)
    ensures j < m && PutOf(es, m, k)
    decreases |es|
  {
    var n := |es| - 1;
    if PutOf(es, n, k) {
      m := n;
    } else {
      m := PresentWasPut(es[..n], j, k);
    }
  }

  lemma {:induction false} AbsentWasDeleted(es: seq<Entry>, i: nat, k: bytes) returns (j: nat)
    requires PutOf(es, i, k) && k !in LastWrites(es)
    ensures i < j < |es| && es[j] == Del(k)
    decreases |es|
  {
    var n := |es| - 1;
    if es[n] == Del(k) {
      j := n;
    } else {
      j := AbsentWasDeleted(es[..n], i, k);
    }
  }

  lemma {:induction false} ArrivesAgain(es: seq<Entry>, j: nat, l: nat, k: bytes)
    requires j < l && j < |es| && DelOf(es, j, k) && PutOf(es, l, k)
    ensures Arrivals(es, k) >= Arrivals(es[..j], k) + 1
    decreases |es|, l
  {
    var n := |es| - 1;
    assert es[..n][..j] == es[..j];
    if l < n {
      ArrivesAgain(es[..n], j, l, k);
    } else if k in LastWrites(es[..n]) {
      var m := PresentWasPut(es[..n], j, k);
      ArrivesAgain(es[..n], j, m, k);
    } else {
      ArrivalsGrow(es[..n], j, k);
    }
  }

  lemma {:induction false} ArrivedBefore(es: seq<Entry>, k: bytes) returns (i: nat)
    requires Arrivals(es, k) >= 1
    ensures PutOf(es, i, k)
    decreases |es|
  {
    var n := |es| - 1;
    if PutOf(es, n, k) {
      i := n;
    } else {
      i := ArrivedBefore(es[..n], k);
    }
  }

  /** A second arrival is a return. */
  lemma {:induction false} ArrivalsAreReturns(es: seq<Entry>, k: bytes)
    ensures Arrivals(es, k) >= 2 <==> Returns(es, k)
    decreases |es|
  {
    if Arrivals(es, k) >= 2 {
      var n := |es| - 1;
      var head := es[..n];
      if Arrivals(head, k) >= 2 {
        ArrivalsAreReturns(head, k);
        var i, j, l :| i < j < l && PutOf(head, i, k) && DelOf(head, j, k) && PutOf(head, l, k);
        assert PutOf(es, i, k) && DelOf(es, j, k) && PutOf(es, l, k);
      } else {
        var i := ArrivedBefore(head, k);
        var j := AbsentWasDeleted(head, i, k);
        assert PutOf(es, i, k) && DelOf(es, j, k) && PutOf(es, n, k);
      }
    }
    if Returns(es, k) {
      var i, j, l :| i < j < l && PutOf(es, i, k) && DelOf(es, j, k) && PutOf(es, l, k);
      assert PutOf(es[..j], i, k);
      PutArrives(es[..j], i, k);
      ArrivesAgain(es, j, l, k);
    }
  }

  lemma {:induction false} CopiesOfUnique(kvs: seq<Kv>, kv: Kv)
    requires OnePerKey(kvs)
    ensures Copies(kvs, kv) <= 1
  {
    if kvs != [] {
      assert OnePerKey(kvs[1..]) by {
        forall i, j | 0 <= i < j < |kvs| - 1
          ensures kvs[1..][i].key != kvs[1..][j].key
        {
          assert kvs[i + 1].key != kvs[j + 1].key;
        }
      }
      CopiesOfUnique(kvs[1..], kv);
      if kvs[0] == kv {
        assert kv !in kvs[1..];
        InMeansCopies(kvs[1..], kv);
      }
    }
  }

  lemma {:induction false} TwiceMeansTwo(kvs: seq<Kv>, i: nat, j: nat)
    requires i < j < |kvs| && kvs[i] == kvs[j]
    ensures Copies(kvs, kvs[i]) >= 2
  {
    if i == 0 {
      assert kvs[j] == kvs[1..][j - 1];
      InMeansCopies(kvs[1..], kvs[0]);
    } else {
      TwiceMeansTwo(kvs[1..], i - 1, j - 1);
    }
  }

  /** The docstring's "one per key" holds exactly when no key that survives was
      put, deleted and put again. */
  lemma ScanOnePerKey(es: seq<Entry>)
    ensures OnePerKey(ScanSpec(es)) <==> forall k :: k in LastWrites(es) ==> !Returns(es, k)
  {
    hide ScanSpec, Returns, LastWrites, Arrivals, Copies;
    var out := ScanSpec(es);
    if OnePerKey(out) {
      forall k | k in LastWrites(es)
        ensures !Returns(es, k)
      {
        var kv := Kv(k, LastWrites(es)[k]);
        ScanCounts(es, kv);
        CopiesOfUnique(out, kv);
        ArrivalsAreReturns(es, k);
      }
    }
    if forall k :: k in LastWrites(es) ==> !Returns(es, k) {
      forall i, j | 0 <= i < j < |out|
        ensures out[i].key != out[j].key
      {
        assert out[i] in out && out[j] in out;
        ScanIsLastWrites(es, out[i]);
        ScanIsLastWrites(es, out[j]);
        if out[i].key == out[j].key {
          TwiceMeansTwo(out, i, j);
          ScanCounts(es, out[i]);
          ArrivalsAreReturns(es, out[i].key);
        }
      }
    }
  }

  /** A put, a delete and a put of one key come back as two pairs. */
  lemma ReturningKeyComesTwice(k: bytes, v: bytes, w: bytes)
    ensures ScanSpec([Put(k, v), Del(k), Put(k, w)]) == [Kv(k, w), Kv(k, w)]
  {
    var es := [Put(k, v), Del(k), Put(k, w)];
    assert es[..2] == [Put(k, v), Del(k)] && es[..2][..1] == [Put(k, v)] && es[..2][..1][..0] == [];
    assert LastWrites(es[..2][..1]) == map[k := v];
    assert LastWrites(es[..2]) == map[k := v] - {k} == map[];
    assert Order(es[..2][..1]) == [k];
    assert Order(es[..2]) == [k];
    assert Order(es) == [k, k];
    assert LastWrites(es) == map[k := w];
    var m := map[k := w];
    assert Survivors([k, k], m) == [Kv(k, w)] + Survivors([k], m) by {
      assert [k, k][1..] == [k];
    }
    assert Survivors([k], m) == [Kv(k, w)] + Survivors([], m) by {
      assert [k][1..] == [];
    }
  }

  // --- scan_all: every copy since the key's last delete ---

  /** Entry `i` is a put no later delete of its key undoes. */
  predicate Live(es: seq<Entry>, i: nat)
    requires i < |es|
  {
    es[i].Put? && forall j :: i < j < |es| ==> es[j] != Del(es[i].key)
  }

  /** The live puts among the first `n` entries, in order. */
  ghost function LivePuts(es: seq<Entry>, n: nat): seq<Kv>
    requires n <= |es|
  {
    if n == 0 then []
    else LivePuts(es, n - 1) + if Live(es, n - 1) then [Kv(es[n - 1].key, es[n - 1].value)] else []
  }

  ghost function ScanAllSpec(es: seq<Entry>): seq<Kv> {
    LivePuts(es, |es|)
  }

  function Cleared(slot: Option<Kv>, k: bytes): Option<Kv> {
    if slot.Some? && slot.value.key == k then None else slot
  }

  function Clear(slots: seq<Option<Kv>>, k: bytes): (r: seq<Option<Kv>>)
    ensures |r| == |slots|
  {
    if slots == [] then []
    else
      var n := |slots| - 1;
      Clear(slots[..n], k) + [Cleared(slots[n], k)]
  }

  /** The result list as the walk leaves it, with a hole for every undone put. */
  function Slots(es: seq<Entry>): seq<Option<Kv>> {
    if es == [] then []
    else
      var n := |es| - 1;
      match es[n]
      case Put(k, v) => Slots(es[..n]) + [Some(Kv(k, v))]
      case Del(k) => Clear(Slots(es[..n]), k)
  }

  function Filled(slots: seq<Option<Kv>>): seq<Kv> {
    if slots == [] then []
    else (if slots[0].Some? then [slots[0].value] else []) + Filled(slots[1..])
  }

  /** Where key `k` still has a copy. */
  function Places(slots: seq<Option<Kv>>, k: bytes): (at: seq<nat>)
    ensures forall j :: 0 <= j < |at| ==> at[j] < |slots|
  {
    if slots == [] then []
    else
      var n := |slots| - 1;
      Places(slots[..n], k) + if slots[n].Some? && slots[n].value.key == k then [n] else []
  }

  function Get(positions: map<bytes, seq<nat>>, k: bytes): seq<nat> {
    if k in positions then positions[k] else []
  }

  ghost predicate Tracks(positions: map<bytes, seq<nat>>, slots: seq<Option<Kv>>) {
    forall k :: Get(positions, k) == Places(slots, k)
  }

  function ClearAt(slots: seq<Option<Kv>>, at: seq<nat>): (r: seq<Option<Kv>>)
    requires forall j :: 0 <= j < |at| ==> at[j] < |slots|
    ensures |r| == |slots|
    decreases |at|
  {
    if at == [] then slots else ClearAt(slots, at[..|at| - 1])[at[|at| - 1] := None]
  }

  lemma {:induction false} ClearAtHead(slots: seq<Option<Kv>>, x: Option<Kv>, at: seq<nat>)
    requires forall j :: 0 <= j < |at| ==> at[j] < |slots|
    ensures ClearAt(slots + [x], at) == ClearAt(slots, at) + [x]
    decreases |at|
  {
    if at != [] {
      ClearAtHead(slots, x, at[..|at| - 1]);
    }
  }

  lemma {:induction false} ClearAtPlaces(slots: seq<Option<Kv>>, k: bytes)
    ensures ClearAt(slots, Places(slots, k)) == Clear(slots, k)
    decreases |slots|
  {
    hide ClearAt;
    if slots == [] {
    } else {
      var n := |slots| - 1;
      var head, x := slots[..n], slots[n];
      var at := Places(head, k);
      ClearAtPlaces(head, k);
      ClearAtHead(head, x, at);
      assert slots == head + [x];
      if x.Some? && x.value.key == k {
        ClearAtOneMore(slots, at, n);
      } else {
        assert at + [] == at;
      }
    }
  }

  lemma ClearAtOneMore(slots: seq<Option<Kv>>, at: seq<nat>, n: nat)
    requires n < |slots| && forall j :: 0 <= j < |at| ==> at[j] < |slots|
    ensures ClearAt(slots, at + [n]) == ClearAt(slots, at)[n := None]
  {
    assert (at + [n])[..|at|] == at;
  }

  method ClearSlots(slots: seq<Option<Kv>>, at: seq<nat>) returns (result: seq<Option<Kv>>)
    requires forall j :: 0 <= j < |at| ==> at[j] < |slots|
    ensures result == ClearAt(slots, at)
  {
    result := slots;
    for j := 0 to |at|
      invariant result == ClearAt(slots, at[..j])
    {
      assert at[..j + 1][..j] == at[..j];
      result := result[at[j] := None];
    }
    assert at[..|at|] == at;
  }

  lemma {:induction false} PlacesCleared(slots: seq<Option<Kv>>, gone: bytes, k: bytes)
    ensures Places(Clear(slots, gone), k) == if k == gone then [] else Places(slots, k)
    decreases |slots|
  {
    if slots != [] {
      var n := |slots| - 1;
      PlacesCleared(slots[..n], gone, k);
    }
  }

  lemma NothingTracked()
    ensures Tracks(map[], [])
  {
  }

  method ScanAll(es: seq<Entry>) returns (out: seq<Kv>)
    ensures out == ScanAllSpec(es)
  {
    hide Clear, Places, ClearAt, Tracks, Live;
    var result: seq<Option<Kv>> := [];
    var positions: map<bytes, seq<nat>> := map[];
    NothingTracked();
    for i := 0 to |es|
      invariant result == Slots(es[..i])
      invariant Tracks(positions, result)
    {
      assert es[..i + 1][..i] == es[..i];
      var e := es[i];
      if e.Del? {
        ClearTracks(positions, result, e.key);
        ClearAtPlaces(result, e.key);
        result := ClearSlots(result, Get(positions, e.key));
        positions := positions - {e.key};
        continue;
      }
      AppendTracks(positions, result, Kv(e.key, e.value));
      var idx := |result|;
      result := result + [Some(Kv(e.key, e.value))];
      positions := positions[e.key := Get(positions, e.key) + [idx]];
    }
    assert es[..|es|] == es;
    hide Slots;
    assert result[0..] == result;
    out := [];
    for i := 0 to |result|
      invariant Filled(result) == out + Filled(result[i..])
    {
      FilledStep(out, result, i);
      if result[i].Some? {
        out := out + [result[i].value];
      }
    }
    assert result[|result|..] == [];
    SlotsAreLivePuts(es);
  }

  lemma FilledStep(out: seq<Kv>, slots: seq<Option<Kv>>, i: nat)
    requires i < |slots|
    ensures out + Filled(slots[i..]) ==
      (if slots[i].Some? then out + [slots[i].value] else out) + Filled(slots[i + 1..])
  {
    assert slots[i..][1..] == slots[i + 1..];
  }

  lemma ClearTracks(positions: map<bytes, seq<nat>>, slots: seq<Option<Kv>>, k: bytes)
    requires Tracks(positions, slots)
    ensures Get(positions, k) == Places(slots, k)
    ensures Tracks(positions - {k}, Clear(slots, k))
  {
    hide Clear, Places;
    forall x
      ensures Get(positions - {k}, x) == Places(Clear(slots, k), x)
    {
      PlacesCleared(slots, k, x);
      assert Get(positions, x) == Places(slots, x);
    }
  }

  lemma AppendTracks(positions: map<bytes, seq<nat>>, slots: seq<Option<Kv>>, kv: Kv)
    requires Tracks(positions, slots)
    ensures Tracks(positions[kv.key := Get(positions, kv.key) + [|slots|]], slots + [Some(kv)])
  {
    var more := positions[kv.key := Get(positions, kv.key) + [|slots|]];
    hide Places;
    forall x
      ensures Get(more, x) == Places(slots + [Some(kv)], x)
    {
      assert Get(positions, x) == Places(slots, x);
      assert Places(slots, x) + [] == Places(slots, x);
    }
  }

  // --- the holes are the puts a later delete undoes ---

  /** The live puts of the first `n` entries when `es` goes on to the end. */
  lemma {:induction false} LiveAfterPut(es: seq<Entry>, e: Entry, n: nat)
    requires n <= |es| && e.Put?
    ensures LivePuts(es + [e], n) == LivePuts(es, n)
  {
    if n > 0 {
      LiveAfterPut(es, e, n - 1);
      var all := es + [e];
      assert Live(all, n - 1) <==> Live(es, n - 1) by {
        assert forall j :: n - 1 < j < |es| ==> all[j] == es[j];
        if Live(all, n - 1) {
          forall j | n - 1 < j < |es|
            ensures es[j] != Del(es[n - 1].key)
          {
            assert all[j] != Del(all[n - 1].key);
          }
        }
      }
    }
  }

  function Without(kvs: seq<Kv>, k: bytes): seq<Kv> {
    if kvs == [] then []
    else
      var n := |kvs| - 1;
      Without(kvs[..n], k) + if kvs[n].key == k then [] else [kvs[n]]
  }

  lemma {:induction false} LiveAfterDelete(es: seq<Entry>, k: bytes, n: nat)
    requires n <= |es|
    ensures LivePuts(es + [Del(k)], n) == Without(LivePuts(es, n), k)
  {
    if n > 0 {
      LiveAfterDelete(es, k, n - 1);
      var all := es + [Del(k)];
      var head := LivePuts(es, n - 1);
      assert Live(all, n - 1) <==> Live(es, n - 1) && es[n - 1].key != k by {
        if Live(all, n - 1) {
          assert all[|es|] != Del(all[n - 1].key);
          forall j | n - 1 < j < |es|
            ensures es[j] != Del(es[n - 1].key)
          {
            assert all[j] != Del(all[n - 1].key);
          }
        }
      }
      if Live(es, n - 1) {
        var kv := Kv(es[n - 1].key, es[n - 1].value);
        assert (head + [kv])[..|head|] == head;
      } else {
        assert head + [] == head;
      }
    }
  }

  lemma {:induction false} FilledAppend(a: seq<Option<Kv>>, b: seq<Option<Kv>>)
    ensures Filled(a + b) == Filled(a) + Filled(b)
    decreases |a|
  {
    if a == [] {
      assert a + b == b;
    } else {
      FilledStep([], a + b, 0);
      FilledStep([], a, 0);
      assert (a + b)[0..] == a + b && a[0..] == a && (a + b)[1..] == a[1..] + b;
      FilledAppend(a[1..], b);
    }
  }

  lemma {:induction false} ClearedIsWithout(slots: seq<Option<Kv>>, k: bytes)
    ensures Filled(Clear(slots, k)) == Without(Filled(slots), k)
    decreases |slots|
  {
    hide Filled, Without;
    if slots == [] {
      NoneFilled();
    } else {
      var n := |slots| - 1;
      var head, x := slots[..n], slots[n];
      ClearedIsWithout(head, k);
      assert slots == head + [x];
      FilledAppend(head, [x]);
      FilledAppend(Clear(head, k), [Cleared(x, k)]);
      OneFilled(x);
      OneFilled(Cleared(x, k));
      if x.Some? {
        WithoutAppend(Filled(head), x.value, k);
      } else {
        assert Filled(head) + [] == Filled(head);
        assert Filled(Clear(head, k)) + [] == Filled(Clear(head, k));
      }
    }
  }

  lemma WithoutAppend(kvs: seq<Kv>, kv: Kv, k: bytes)
    ensures Without(kvs + [kv], k) == Without(kvs, k) + if kv.key == k then [] else [kv]
  {
    assert (kvs + [kv])[..|kvs|] == kvs;
  }

  /** One more entry adds a live put, or undoes every live put of its key. */
  lemma ScanAllStep(head: seq<Entry>, e: Entry)
    ensures e.Put? ==> ScanAllSpec(head + [e]) == ScanAllSpec(head) + [Kv(e.key, e.value)]
    ensures e.Del? ==> ScanAllSpec(head + [e]) == Without(ScanAllSpec(head), e.key)
  {
    hide Live, Without;
    LastIsLive(head, e);
    if e.Put? {
      LiveAfterPut(head, e, |head|);
    } else {
      LiveAfterDelete(head, e.key, |head|);
      var left := Without(ScanAllSpec(head), e.key);
      assert left + [] == left;
    }
  }

  lemma {:induction false} SlotsAreLivePuts(es: seq<Entry>)
    ensures Filled(Slots(es)) == ScanAllSpec(es)
    decreases |es|
  {
    hide Clear, Filled, Without, Live;
    if es == [] {
      NoneFilled();
    } else {
      var n := |es| - 1;
      var head, e := es[..n], es[n];
      SlotsAreLivePuts(head);
      assert es == head + [e];
      ScanAllStep(head, e);
      if e.Put? {
        FilledAppend(Slots(head), [Some(Kv(e.key, e.value))]);
        OneFilled(Some(Kv(e.key, e.value)));
      } else {
        ClearedIsWithout(Slots(head), e.key);
      }
    }
  }

  lemma NoneFilled()
    ensures Filled([]) == []
    ensures forall k :: Without([], k) == []
  {
  }

  lemma OneFilled(x: Option<Kv>)
    ensures Filled([x]) == if x.Some? then [x.value] else []
  {
    assert [x][1..] == [];
  }

  lemma LastIsLive(head: seq<Entry>, e: Entry)
    ensures Live(head + [e], |head|) <==> e.Put?
  {
  }

  /** One key's values among some pairs, in order. */
  function ValuesOf(kvs: seq<Kv>, k: bytes): seq<bytes> {
    if kvs == [] then []
    else
      var n := |kvs| - 1;
      ValuesOf(kvs[..n], k) + if kvs[n].key == k then [kvs[n].value] else []
  }

  /** The values put under `k` since it was last deleted. */
  function SinceDelete(es: seq<Entry>, k: bytes): seq<bytes> {
    if es == [] then []
    else
      var n := |es| - 1;
      if es[n] == Del(k) then []
      else SinceDelete(es[..n], k) + if es[n].Put? && es[n].key == k then [es[n].value] else []
  }

  lemma {:induction false} ValuesWithout(kvs: seq<Kv>, gone: bytes, k: bytes)
    ensures ValuesOf(Without(kvs, gone), k) == if gone == k then [] else ValuesOf(kvs, k)
    decreases |kvs|
  {
    if kvs != [] {
      var n := |kvs| - 1;
      ValuesWithout(kvs[..n], gone, k);
      var less := Without(kvs[..n], gone);
      if kvs[n].key == gone {
        assert less + [] == less;
      } else {
        assert (less + [kvs[n]])[..|less|] == less;
      }
    }
  }

  /** `scan_all`, key by key: the values since the last delete, in order. */
  lemma {:induction false} ScanAllIsSinceDelete(es: seq<Entry>, k: bytes)
    ensures ValuesOf(ScanAllSpec(es), k) == SinceDelete(es, k)
    decreases |es|
  {
    if es != [] {
      hide ScanAllSpec, ValuesOf, Without;
      var n := |es| - 1;
      var head, e := es[..n], es[n];
      ScanAllIsSinceDelete(head, k);
      assert es == head + [e];
      ScanAllStep(head, e);
      if e.Put? {
      } else {
        ValuesWithout(ScanAllSpec(head), e.key, k);
        assert SinceDelete(head, k) + [] == SinceDelete(head, k);
      }
    }
  }

  /** The two scans agree on which keys survive, and the last copy `scan_all`
      gives of a key is the value `scan` gives it. */
  lemma {:induction false} LastCopyIsLastWrite(es: seq<Entry>, k: bytes)
    ensures k in LastWrites(es) <==> SinceDelete(es, k) != []
    ensures k in LastWrites(es) ==>
      var vs := SinceDelete(es, k); vs[|vs| - 1] == LastWrites(es)[k]
    decreases |es|
  {
    if es != [] {
      LastCopyIsLastWrite(es[..|es| - 1], k);
    }
  }
}
