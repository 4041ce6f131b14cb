/** The structural reader of V8 values: every tree of allowed height written by
    the serializer comes back normalized, and no deeper tree is read at all. */
module V8 {
  import opened Bytes
  import opened Wrappers

  const MAX_DEPTH: nat := 64

  /** The two text decodings the reader calls and this model does not define. */
  datatype Decoder = Decoder(utf16: bytes -> string, utf8: bytes -> string)

  /** What the reader returns; a double keeps its eight bytes. */
  datatype Value =
    | Null
    | Bool(b: bool)
    | Int(i: int)
    | Double(raw: bytes)
    | Str(s: string)
    | Obj(m: map<string, Value>)
    | List(items: seq<Value>)

  datatype Prop = Prop(key: Value, value: Value)

  function Latin1(raw: bytes): string {
    seq(|raw|, i requires 0 <= i < |raw| => raw[i] as char)
  }

  function UnZig(z: nat): int {
    if z % 2 == 1 then -((z + 1) / 2) else z / 2
  }

  // --- what the reader computes ---

  /** The tags that carry no other value. */
  function ReadLeaf(d: Decoder, buf: bytes, pos: nat): Option<(Value, nat)>
    requires pos < |buf|
  {
    var tag := buf[pos];
    if tag == '0' as int || tag == '_' as int then Some((Null, pos + 1))
    else if tag == 'T' as int then Some((Bool(true), pos + 1))
    else if tag == 'F' as int then Some((Bool(false), pos + 1))
    else if tag == 'N' as int then
      if pos + 9 <= |buf| then Some((Double(buf[pos + 1..pos + 9]), pos + 9)) else None
    else
      match ReadVarintSpec(buf, pos + 1)
      case None => None
      case Some((n, at)) =>
        if tag == 'I' as int then Some((Int(UnZig(n)), at))
        else if tag == '^' as int then Some((Null, at))
        else if at + n > |buf| then None
        else if tag == '"' as int then Some((Str(Latin1(buf[at..at + n])), at + n))
        else if tag == 'c' as int then Some((Str(d.utf16(buf[at..at + n])), at + n))
        else if tag == 'S' as int then Some((Str(d.utf8(buf[at..at + n])), at + n))
        else None
  }

  /** Key and value pairs up to the end tag, and where that leaves off. */
  function ReadProps(d: Decoder, buf: bytes, pos: nat, depth: nat, end: byte): (r: Option<(seq<Prop>, nat)>)
    ensures r.Some? ==> pos < r.value.1 <= |buf|
    decreases |buf| - pos, 1
  {
    if pos >= |buf| then None
    else if buf[pos] == end then Some(([], pos + 1))
    else
      match Read(d, buf, pos, depth)
      case None => None
      case Some((key, p1)) =>
        match Read(d, buf, p1, depth)
        case None => None
        case Some((value, p2)) =>
          match ReadProps(d, buf, p2, depth, end)
          case None => None
          case Some((rest, p3)) => Some(([Prop(key, value)] + rest, p3))
  }

  function ReadItems(d: Decoder, buf: bytes, pos: nat, depth: nat, n: nat): (r: Option<(seq<Value>, nat)>)
    requires pos <= |buf|
    ensures r.Some? ==> pos <= r.value.1 <= |buf|
    decreases |buf| - pos, 1
  {
    if n == 0 then Some(([], pos))
    else
      match Read(d, buf, pos, depth)
      case None => None
      case Some((v, p1)) =>
        match ReadItems(d, buf, p1, depth, n - 1)
        case None => None
        case Some((rest, p2)) => Some(([v] + rest, p2))
  }

  /** The counts that close an array. */
  function ReadTwo(buf: bytes, pos: nat): Option<nat> {
    match ReadVarintSpec(buf, pos)
    case None => None
    case Some((_, p1)) =>
      match ReadVarintSpec(buf, p1)
      case None => None
      case Some((_, p2)) => Some(p2)
  }

  function ReadObject(d: Decoder, buf: bytes, pos: nat, depth: nat): Option<(Value, nat)>
    requires pos <= |buf|
    decreases |buf| - pos, 2
  {
    match ReadProps(d, buf, pos, depth, '{' as int)
    case None => None
    case Some((props, p)) =>
      match ReadVarintSpec(buf, p)
      case None => None
      case Some((_, p1)) => Some((Obj(Fields(props, map[])), p1))
  }

  function ReadDense(d: Decoder, buf: bytes, pos: nat, depth: nat): Option<(Value, nat)>
    requires pos <= |buf|
    decreases |buf| - pos, 2
  {
    match ReadVarintSpec(buf, pos)
    case None => None
    case Some((n, p1)) =>
      if n > |buf| - p1 then None
      else
        match ReadItems(d, buf, p1, depth, n)
        case None => None
        case Some((items, p2)) =>
          match ReadProps(d, buf, p2, depth, '$' as int)
          case None => None
          case Some((_, p3)) =>
            match ReadTwo(buf, p3)
            case None => None
            case Some(p4) => Some((List(items), p4))
  }

  function ReadSparse(d: Decoder, buf: bytes, pos: nat, depth: nat): Option<(Value, nat)>
    requires pos <= |buf|
    decreases |buf| - pos, 2
  {
    match ReadVarintSpec(buf, pos)
    case None => None
    case Some((_, p1)) =>
      match ReadProps(d, buf, p1, depth, '@' as int)
      case None => None
      case Some((props, p2)) =>
        match ReadTwo(buf, p2)
        case None => None
        case Some(p3) => Some((List(InOrder(Indexed(props, map[]))), p3))
  }

  /** One value: refused at depth 64, and always leaving off further on. */
  function Read(d: Decoder, buf: bytes, pos: nat, depth: nat): (r: Option<(Value, nat)>)
    ensures r.Some? ==> pos < r.value.1 <= |buf|
    decreases |buf| - pos, 0
  {
    if depth >= MAX_DEPTH || pos >= |buf| then None
    else if buf[pos] == 'o' as int then ReadObject(d, buf, pos + 1, depth + 1)
    else if buf[pos] == 'A' as int then ReadDense(d, buf, pos + 1, depth + 1)
    else if buf[pos] == 'a' as int then ReadSparse(d, buf, pos + 1, depth + 1)
    else ReadLeaf(d, buf, pos)
  }

  // --- what pairs amount to ---

  /** String keys only, the last write of a key winning. */
  function Fields(props: seq<Prop>, m: map<string, Value>): map<string, Value> {
    if props == [] then m
    else Fields(props[1..], if props[0].key.Str? then m[props[0].key.s := props[0].value] else m)
  }

  /** Integer keys only, the last write of an index winning. */
  function Indexed(props: seq<Prop>, m: map<int, Value>): map<int, Value> {
    if props == [] then m
    else Indexed(props[1..], if props[0].key.Int? then m[props[0].key.i := props[0].value] else m)
  }

  /** No later pair has this one's key. */
  predicate LastFor(props: seq<Prop>, i: nat) {
    i < |props| && forall j | i < j < |props| :: props[j].key != props[i].key
  }

  lemma {:induction false} FieldsFrom(props: seq<Prop>, m: map<string, Value>, k: string)
    ensures k in Fields(props, m) <==> k in m || exists i :: 0 <= i < |props| && props[i].key == Str(k)
    ensures forall i: nat :: LastFor(props, i) && props[i].key == Str(k) ==>
      k in Fields(props, m) && Fields(props, m)[k] == props[i].value
    ensures (forall i :: 0 <= i < |props| ==> props[i].key != Str(k)) && k in m ==>
      k in Fields(props, m) && Fields(props, m)[k] == m[k]
  {
    if props != [] {
      var n := if props[0].key.Str? then m[props[0].key.s := props[0].value] else m;
      FieldsFrom(props[1..], n, k);
      forall i: nat | LastFor(props, i) && props[i].key == Str(k)
        ensures k in Fields(props, m) && Fields(props, m)[k] == props[i].value
      {
        if i > 0 {
          assert LastFor(props[1..], i - 1);
        } else {
          assert forall j :: 0 <= j < |props[1..]| ==> props[1..][j] == props[j + 1];
        }
      }
      assert forall j :: 0 <= j < |props[1..]| ==> props[1..][j] == props[j + 1];
      if i :| 0 <= i < |props| && props[i].key == Str(k) {
        assert i > 0 ==> props[1..][i - 1].key == Str(k);
      }
    }
  }

  lemma {:induction false} IndexedFrom(props: seq<Prop>, m: map<int, Value>, k: int)
    ensures k in Indexed(props, m) <==> k in m || exists i :: 0 <= i < |props| && props[i].key == Int(k)
    ensures forall i: nat :: LastFor(props, i) && props[i].key == Int(k) ==>
      k in Indexed(props, m) && Indexed(props, m)[k] == props[i].value
    ensures (forall i :: 0 <= i < |props| ==> props[i].key != Int(k)) && k in m ==>
      k in Indexed(props, m) && Indexed(props, m)[k] == m[k]
  {
    if props != [] {
      var n := if props[0].key.Int? then m[props[0].key.i := props[0].value] else m;
      IndexedFrom(props[1..], n, k);
      forall i: nat | LastFor(props, i) && props[i].key == Int(k)
        ensures k in Indexed(props, m) && Indexed(props, m)[k] == props[i].value
      {
        if i > 0 {
          assert LastFor(props[1..], i - 1);
        } else {
          assert forall j :: 0 <= j < |props[1..]| ==> props[1..][j] == props[j + 1];
        }
      }
      assert forall j :: 0 <= j < |props[1..]| ==> props[1..][j] == props[j + 1];
      if i :| 0 <= i < |props| && props[i].key == Int(k) {
        assert i > 0 ==> props[1..][i - 1].key == Int(k);
      }
    }
  }

  /** An object has exactly the string keys written, and a sparse array exactly the
      whole numbers, each with the value written last. */
  lemma PairsAreLastWrites(props: seq<Prop>, field: string, index: int)
    ensures field in Fields(props, map[]) <==> exists i :: 0 <= i < |props| && props[i].key == Str(field)
    ensures index in Indexed(props, map[]) <==> exists i :: 0 <= i < |props| && props[i].key == Int(index)
    ensures forall i: nat :: LastFor(props, i) && props[i].key == Str(field) ==>
      field in Fields(props, map[]) && Fields(props, map[])[field] == props[i].value
    ensures forall i: nat :: LastFor(props, i) && props[i].key == Int(index) ==>
      index in Indexed(props, map[]) && Indexed(props, map[])[index] == props[i].value
  {
    hide Fields, Indexed, LastFor;
    FieldsFrom(props, map[], field);
    IndexedFrom(props, map[], index);
  }

  lemma {:induction false} FindLeast(s: set<int>) returns (least: int)
    requires s != {}
    ensures least in s && forall j :: j in s ==> least <= j
    decreases |s|
  {
    var x := AnElement(s);
    least := x;
    var rest := s - {x};
    assert forall j :: j in s ==> j == x || j in rest;
    if rest != {} {
      var m := FindLeast(rest);
      if m < x {
        least := m;
      }
    }
  }

  lemma LeastExists(s: set<int>)
    requires s != {}
    ensures exists k :: k in s && forall j :: j in s ==> k <= j
  {
    var k := FindLeast(s);
  }

  function Least(s: set<int>): (k: int)
    requires s != {}
    ensures k in s && forall j :: j in s ==> k <= j
  {
    LeastExists(s);
    var k :| k in s && forall j :: j in s ==> k <= j;
    k
  }

  /** `[m[i] for i in sorted(m)]`: the holes collapse. */
  function InOrder(m: map<int, Value>): seq<Value>
    decreases |m|
  {
    if m == map[] then []
    else
      var k := Least(m.Keys);
      assert |m - {k}| == |m| - 1 by { assert (m - {k}).Keys == m.Keys - {k}; }
      [m[k]] + InOrder(m - {k})
  }

  /** The indices of a sparse array, least first. */
  function Indices(m: map<int, Value>): (keys: seq<int>)
    decreases |m|
  {
    if m == map[] then []
    else
      var k := Least(m.Keys);
      assert |m - {k}| == |m| - 1 by { assert (m - {k}).Keys == m.Keys - {k}; }
      [k] + Indices(m - {k})
  }

  /** Each index once, ascending, and the values in that order. */
  lemma {:induction false} InOrderAscends(m: map<int, Value>)
    ensures |Indices(m)| == |InOrder(m)|
    ensures forall i :: 0 <= i < |Indices(m)| ==>
      Indices(m)[i] in m && InOrder(m)[i] == m[Indices(m)[i]]
    ensures forall i, j :: 0 <= i < j < |Indices(m)| ==> Indices(m)[i] < Indices(m)[j]
    ensures |Indices(m)| == |m|
    decreases |m|
  {
    if m != map[] {
      var k := Least(m.Keys);
      var less := m - {k};
      assert less.Keys == m.Keys - {k};
      InOrderAscends(less);
      var keys, values := Indices(less), InOrder(less);
      forall i | 0 <= i < |keys|
        ensures keys[i] in m && k < keys[i] && values[i] == m[keys[i]]
      {
        assert keys[i] in less;
      }
    }
  }

  // --- the reader's loops ---

  /** What a loop that has built `m` so far ends with. */
  ghost function ToFields(m: map<string, Value>, rest: Option<(seq<Prop>, nat)>): Option<(map<string, Value>, nat)> {
    match rest
    case None => None
    case Some((props, p)) => Some((Fields(props, m), p))
  }

  ghost function ToIndexed(m: map<int, Value>, rest: Option<(seq<Prop>, nat)>): Option<(map<int, Value>, nat)> {
    match rest
    case None => None
    case Some((props, p)) => Some((Indexed(props, m), p))
  }

  ghost function ToEnd(rest: Option<(seq<Prop>, nat)>): Option<nat> {
    match rest
    case None => None
    case Some((_, p)) => Some(p)
  }

  ghost function After(items: seq<Value>, rest: Option<(seq<Value>, nat)>): Option<(seq<Value>, nat)> {
    match rest
    case None => None
    case Some((more, p)) => Some((items + more, p))
  }

  /** One turn of any of the three pair loops. */
  lemma PropsTurn(d: Decoder, buf: bytes, pos: nat, depth: nat, end: byte)
    ensures var rest := ReadProps(d, buf, pos, depth, end);
      if pos >= |buf| then rest == None
      else if buf[pos] == end then rest == Some(([], pos + 1))
      else
        var key := Read(d, buf, pos, depth);
        if key.None? then rest == None
        else
          var value := Read(d, buf, key.value.1, depth);
          if value.None? then rest == None
          else
            var more := ReadProps(d, buf, value.value.1, depth, end);
            && ToEnd(rest) == ToEnd(more)
            && (forall m :: ToFields(m, rest) ==
                  ToFields(if key.value.0.Str? then m[key.value.0.s := value.value.0] else m, more))
            && (forall m :: ToIndexed(m, rest) ==
                  ToIndexed(if key.value.0.Int? then m[key.value.0.i := value.value.0] else m, more))
  {
    hide Read;
  }

  method ReadValue(d: Decoder, buf: bytes, pos: nat, depth: nat) returns (r: Option<(Value, nat)>)
    ensures r == Read(d, buf, pos, depth)
    decreases |buf| - pos, 0
  {
    hide ReadObject, ReadDense, ReadSparse, ReadLeaf;
    if depth >= MAX_DEPTH {
      return None;
    }
    if pos >= |buf| {
      return None;
    }
    var tag := buf[pos];
    if tag == 'o' as int {
      r := ReadObjectValue(d, buf, pos + 1, depth + 1);
    } else if tag == 'A' as int {
      r := ReadDenseValue(d, buf, pos + 1, depth + 1);
    } else if tag == 'a' as int {
      r := ReadSparseValue(d, buf, pos + 1, depth + 1);
    } else {
      r := ReadLeaf(d, buf, pos);
    }
  }

  method ReadObjectValue(d: Decoder, buf: bytes, start: nat, depth: nat) returns (r: Option<(Value, nat)>)
    requires start <= |buf|
    ensures r == ReadObject(d, buf, start, depth)
    decreases |buf| - start, 2
  {
    hide Read, ReadProps, ReadVarintSpec;
    var obj: map<string, Value> := map[];
    var pos := start;
    while true
      invariant start <= pos <= |buf|
      invariant ToFields(map[], ReadProps(d, buf, start, depth, '{' as int)) ==
        ToFields(obj, ReadProps(d, buf, pos, depth, '{' as int))
      decreases |buf| - pos
    {
      PropsTurn(d, buf, pos, depth, '{' as int);
      if pos >= |buf| {
        return None;
      }
      if buf[pos] == '{' as int {
        pos := pos + 1;
        break;
      }
      var key := ReadValue(d, buf, pos, depth);
      if key.None? {
        return None;
      }
      var value := ReadValue(d, buf, key.value.1, depth);
      if value.None? {
        return None;
      }
      pos := value.value.1;
      if key.value.0.Str? {
        obj := obj[key.value.0.s := value.value.0];
      }
    }
    assert ToFields(map[], ReadProps(d, buf, start, depth, '{' as int)) == Some((obj, pos));
    var count := ReadVarint(buf, pos);
    if count.None? {
      return None;
    }
    return Some((Obj(obj), count.value.1));
  }

  method SkipProps(d: Decoder, buf: bytes, start: nat, depth: nat, end: byte) returns (r: Option<nat>)
    requires start <= |buf|
    ensures r == ToEnd(ReadProps(d, buf, start, depth, end))
    decreases |buf| - start, 1
  {
    hide Read, ReadProps;
    var pos := start;
    while true
      invariant start <= pos <= |buf|
      invariant ToEnd(ReadProps(d, buf, start, depth, end)) == ToEnd(ReadProps(d, buf, pos, depth, end))
      decreases |buf| - pos
    {
      PropsTurn(d, buf, pos, depth, end);
      if pos >= |buf| {
        return None;
      }
      if buf[pos] == end {
        return Some(pos + 1);
      }
      var key := ReadValue(d, buf, pos, depth);
      if key.None? {
        return None;
      }
      var value := ReadValue(d, buf, key.value.1, depth);
      if value.None? {
        return None;
      }
      pos := value.value.1;
    }
  }

  lemma ItemsTurn(d: Decoder, buf: bytes, pos: nat, depth: nat, n: nat, items: seq<Value>)
    requires pos <= |buf|
    ensures var rest := After(items, ReadItems(d, buf, pos, depth, n));
      if n == 0 then rest == Some((items, pos))
      else
        var v := Read(d, buf, pos, depth);
        rest == if v.None? then None
          else After(items + [v.value.0], ReadItems(d, buf, v.value.1, depth, n - 1))
  {
    hide Read;
    if n > 0 {
      var v := Read(d, buf, pos, depth);
      if v.Some? {
        var more := ReadItems(d, buf, v.value.1, depth, n - 1);
        if more.Some? {
          assert items + ([v.value.0] + more.value.0) == (items + [v.value.0]) + more.value.0;
        }
      }
    } else {
      assert items + [] == items;
    }
  }

  method ReadDenseValue(d: Decoder, buf: bytes, start: nat, depth: nat) returns (r: Option<(Value, nat)>)
    requires start <= |buf|
    ensures r == ReadDense(d, buf, start, depth)
    decreases |buf| - start, 2
  {
    hide Read, ReadProps, ReadItems, ReadVarintSpec;
    var header := ReadVarint(buf, start);
    if header.None? {
      return None;
    }
    var n, pos := header.value.0, header.value.1;
    if n > |buf| - pos {
      return None;
    }
    ghost var all := ReadItems(d, buf, pos, depth, n);
    var items: seq<Value> := [];
    ItemsStart(all);
    for i := 0 to n
      invariant start < pos <= |buf|
      invariant all == After(items, ReadItems(d, buf, pos, depth, n - i))
    {
      ItemsTurn(d, buf, pos, depth, n - i, items);
      var v := ReadValue(d, buf, pos, depth);
      if v.None? {
        return None;
      }
      items := items + [v.value.0];
      pos := v.value.1;
    }
    ItemsTurn(d, buf, pos, depth, 0, items);
    assert all == Some((items, pos));
    var skipped := SkipProps(d, buf, pos, depth, '$' as int);
    if skipped.None? {
      return None;
    }
    var counts := ReadTwo(buf, skipped.value);
    if counts.None? {
      return None;
    }
    return Some((List(items), counts.value));
  }

  lemma ItemsStart(all: Option<(seq<Value>, nat)>)
    ensures After([], all) == all
  {
    if all.Some? {
      assert [] + all.value.0 == all.value.0;
    }
  }

  method ReadSparseValue(d: Decoder, buf: bytes, start: nat, depth: nat) returns (r: Option<(Value, nat)>)
    requires start <= |buf|
    ensures r == ReadSparse(d, buf, start, depth)
    decreases |buf| - start, 2
  {
    hide Read, ReadProps, ReadVarintSpec, InOrder;
    var header := ReadVarint(buf, start);
    if header.None? {
      return None;
    }
    var keyed: map<int, Value> := map[];
    var pos := header.value.1;
    ghost var all := ToIndexed(map[], ReadProps(d, buf, pos, depth, '@' as int));
    while true
      invariant start < pos <= |buf|
      invariant all == ToIndexed(keyed, ReadProps(d, buf, pos, depth, '@' as int))
      decreases |buf| - pos
    {
      PropsTurn(d, buf, pos, depth, '@' as int);
      if pos >= |buf| {
        return None;
      }
      if buf[pos] == '@' as int {
        pos := pos + 1;
        break;
      }
      var key := ReadValue(d, buf, pos, depth);
      if key.None? {
        return None;
      }
      var value := ReadValue(d, buf, key.value.1, depth);
      if value.None? {
        return None;
      }
      pos := value.value.1;
      if key.value.0.Int? {
        keyed := keyed[key.value.0.i := value.value.0];
      }
    }
    assert all == Some((keyed, pos));
    var counts := ReadTwo(buf, pos);
    if counts.None? {
      return None;
    }
    return Some((List(InOrder(keyed)), counts.value));
  }

  /** Past however many version envelopes there are. */
  function SkipEnvelopes(buf: bytes, pos: nat): Option<nat>
    decreases |buf| - pos
  {
    if pos >= |buf| || buf[pos] != 0xff then Some(pos)
    else
      match ReadVarintSpec(buf, pos + 1)
      case None => None
      case Some((_, next)) => SkipEnvelopes(buf, next)
  }

  /** Python's None stands both for the null value and for every refusal. */
  function ParseSpec(d: Decoder, buf: bytes): Value {
    match SkipEnvelopes(buf, 0)
    case None => Null
    case Some(pos) =>
      if pos >= |buf| then Null
      else
        match Read(d, buf, pos, 0)
        case None => Null
        case Some((v, _)) => v
  }

  method Parse(d: Decoder, buf: bytes) returns (v: Value)
    ensures v == ParseSpec(d, buf)
  {
    hide Read, ReadVarintSpec;
    var pos: nat := 0;
    while pos < |buf| && buf[pos] == 0xff
      invariant SkipEnvelopes(buf, 0) == SkipEnvelopes(buf, pos)
      decreases |buf| - pos
    {
      var version := ReadVarint(buf, pos + 1);
      if version.None? {
        return Null;
      }
      pos := version.value.1;
    }
    if pos >= |buf| {
      return Null;
    }
    var r := ReadValue(d, buf, pos, 0);
    return if r.Some? then r.value.0 else Null;
  }

  // --- what the serializer writes ---

  datatype Encoding = OneByte | TwoByte | Utf8

  datatype Pair = Pair(key: Tree, value: Tree)

  /** A value as written. An array's properties and the counts that close it are
      whatever the writer put there. */
  datatype Tree =
    | TNull
    | TUndefined
    | TBool(b: bool)
    | TInt(i: int)
    | TDouble(raw: bytes)
    | TStr(encoding: Encoding, raw: bytes)
    | TObject(props: seq<Pair>, count: nat)
    | TDense(items: seq<Tree>, props: seq<Pair>, propCount: nat, length: nat)
    | TSparse(size: nat, props: seq<Pair>, propCount: nat, length: nat)
    | TBackReference(id: nat)

  function Zig(i: int): nat {
    if i >= 0 then 2 * i else -2 * i - 1
  }

  predicate Expressible(t: Tree) {
    match t
    case TNull => true
    case TUndefined => true
    case TBool(_) => true
    case TInt(i) => Zig(i) < VARINT_LIMIT
    case TDouble(raw) => |raw| == 8
    case TStr(_, raw) => |raw| < VARINT_LIMIT
    case TObject(props, count) => PropsExpressible(props) && count < VARINT_LIMIT
    case TDense(items, props, a, b) =>
      |items| < VARINT_LIMIT && ItemsExpressible(items) && PropsExpressible(props) &&
      a < VARINT_LIMIT && b < VARINT_LIMIT
    case TSparse(n, props, a, b) =>
      n < VARINT_LIMIT && PropsExpressible(props) && a < VARINT_LIMIT && b < VARINT_LIMIT
    case TBackReference(id) => id < VARINT_LIMIT
  }

  predicate PropsExpressible(props: seq<Pair>) {
    props == [] || (PairExpressible(props[0]) && PropsExpressible(props[1..]))
  }

  predicate PairExpressible(p: Pair) {
    Expressible(p.key) && Expressible(p.value)
  }

  predicate ItemsExpressible(items: seq<Tree>) {
    items == [] || (Expressible(items[0]) && ItemsExpressible(items[1..]))
  }

  function StringTag(e: Encoding): byte {
    match e
    case OneByte => '"' as int
    case TwoByte => 'c' as int
    case Utf8 => 'S' as int
  }

  function Serialize(t: Tree): bytes {
    match t
    case TNull => ['0' as int]
    case TUndefined => ['_' as int]
    case TBool(b) => [if b then 'T' as int else 'F' as int]
    case TInt(i) => ['I' as int] + Varint(Zig(i))
    case TDouble(raw) => ['N' as int] + raw
    case TStr(e, raw) => [StringTag(e)] + (Varint(|raw|) + raw)
    case TObject(props, count) =>
      ['o' as int] + (SerializeProps(props) + (['{' as int] + Varint(count)))
    case TDense(items, props, a, b) =>
      ['A' as int] + (Varint(|items|) + (SerializeItems(items) +
        (SerializeProps(props) + (['$' as int] + (Varint(a) + Varint(b))))))
    case TSparse(n, props, a, b) =>
      ['a' as int] + (Varint(n) + (SerializeProps(props) + (['@' as int] + (Varint(a) + Varint(b)))))
    case TBackReference(id) => ['^' as int] + Varint(id)
  }

  function SerializeProps(props: seq<Pair>): bytes {
    if props == [] then []
    else SerializePair(props[0]) + SerializeProps(props[1..])
  }

  function SerializePair(p: Pair): bytes {
    Serialize(p.key) + Serialize(p.value)
  }

  function SerializeItems(items: seq<Tree>): (s: bytes)
    ensures |s| >= |items|
  {
    if items == [] then [] else Serialize(items[0]) + SerializeItems(items[1..])
  }

  function Max(a: nat, b: nat): nat {
    if a < b then b else a
  }

  /** Levels of nesting, keys and dropped properties included. */
  function Height(t: Tree): nat {
    match t
    case TObject(props, _) => 1 + PropsHeight(props)
    case TDense(items, props, _, _) => 1 + Max(ItemsHeight(items), PropsHeight(props))
    case TSparse(_, props, _, _) => 1 + PropsHeight(props)
    case _ => 1
  }

  function PropsHeight(props: seq<Pair>): nat {
    if props == [] then 0 else Max(PairHeight(props[0]), PropsHeight(props[1..]))
  }

  function PairHeight(p: Pair): nat {
    Max(Height(p.key), Height(p.value))
  }

  function ItemsHeight(items: seq<Tree>): nat {
    if items == [] then 0 else Max(Height(items[0]), ItemsHeight(items[1..]))
  }

  /** What a tree means to the reader: undefined and back-references are null,
      an array's named properties are dropped, a sparse array is sorted. */
  function Normal(d: Decoder, t: Tree): Value
    decreases t
  {
    match t
    case TNull => Null
    case TUndefined => Null
    case TBool(b) => Bool(b)
    case TInt(i) => Int(i)
    case TDouble(raw) => Double(raw)
    case TStr(e, raw) =>
      Str(match e case OneByte => Latin1(raw) case TwoByte => d.utf16(raw) case Utf8 => d.utf8(raw))
    case TObject(props, _) => Obj(Fields(NormalProps(d, props), map[]))
    case TDense(items, _, _, _) => List(NormalItems(d, items))
    case TSparse(_, props, _, _) => List(InOrder(Indexed(NormalProps(d, props), map[])))
    case TBackReference(_) => Null
  }

  function NormalProps(d: Decoder, props: seq<Pair>): seq<Prop>
    decreases props
  {
    if props == [] then [] else [NormalPair(d, props[0])] + NormalProps(d, props[1..])
  }

  function NormalPair(d: Decoder, p: Pair): Prop
    decreases p
  {
    Prop(Normal(d, p.key), Normal(d, p.value))
  }

  function NormalItems(d: Decoder, items: seq<Tree>): seq<Value>
    decreases items
  {
    if items == [] then [] else [Normal(d, items[0])] + NormalItems(d, items[1..])
  }

  // --- what is written where ---

  /** The bytes from `pos` to `end` spell the tree, each number in any spelling. */
  ghost predicate Spelled(buf: bytes, pos: nat, end: nat, t: Tree)
    decreases t, 1
  {
    pos < end <= |buf| &&
    match t
    case TNull => buf[pos] == '0' as int && end == pos + 1
    case TUndefined => buf[pos] == '_' as int && end == pos + 1
    case TBool(b) => buf[pos] == (if b then 'T' as int else 'F' as int) && end == pos + 1
    case TInt(i) => buf[pos] == 'I' as int && SpellsNumber(buf, pos + 1, end, Zig(i))
    case TDouble(raw) => buf[pos] == 'N' as int && end == pos + 9 && raw == buf[pos + 1..end]
    case TStr(OneByte, raw) => buf[pos] == '"' as int && SpellsField(buf, pos + 1, end, raw)
    case TStr(TwoByte, raw) => buf[pos] == 'c' as int && SpellsField(buf, pos + 1, end, raw)
    case TStr(Utf8, raw) => buf[pos] == 'S' as int && SpellsField(buf, pos + 1, end, raw)
    case TObject(props, count) => buf[pos] == 'o' as int && SpelledFields(buf, pos + 1, end, props, count)
    case TDense(items, props, a, b) => buf[pos] == 'A' as int && SpelledDense(buf, pos + 1, end, items, props, a, b)
    case TSparse(n, props, a, b) => buf[pos] == 'a' as int && SpelledSparse(buf, pos + 1, end, n, props, a, b)
    case TBackReference(id) => buf[pos] == '^' as int && SpellsNumber(buf, pos + 1, end, id)
  }

  /** An end tag and the one number or the two behind it. */
  ghost predicate SpelledCount(buf: bytes, pos: nat, end: nat, tag: byte, n: nat) {
    pos < |buf| && buf[pos] == tag && SpellsNumber(buf, pos + 1, end, n)
  }

  ghost predicate SpelledCounts(buf: bytes, pos: nat, end: nat, tag: byte, a: nat, b: nat) {
    exists at: nat :: SpelledCount(buf, pos, at, tag, a) && SpellsNumber(buf, at, end, b)
  }

  ghost predicate SpelledFields(buf: bytes, pos: nat, end: nat, props: seq<Pair>, count: nat)
    decreases props, 1
  {
    exists at: nat :: SpelledPairs(buf, pos, at, props) && SpelledCount(buf, at, end, '{' as int, count)
  }

  ghost predicate SpelledDense(buf: bytes, pos: nat, end: nat, items: seq<Tree>, props: seq<Pair>, a: nat, b: nat)
    decreases TDense(items, props, a, b), 0
  {
    exists p1: nat, p2: nat, p3: nat ::
      SpellsNumber(buf, pos, p1, |items|) && SpelledItems(buf, p1, p2, items) &&
      SpelledPairs(buf, p2, p3, props) && SpelledCounts(buf, p3, end, '$' as int, a, b)
  }

  ghost predicate SpelledSparse(buf: bytes, pos: nat, end: nat, n: nat, props: seq<Pair>, a: nat, b: nat)
    decreases props, 1
  {
    exists p1: nat, p2: nat ::
      SpellsNumber(buf, pos, p1, n) && SpelledPairs(buf, p1, p2, props) && SpelledCounts(buf, p2, end, '@' as int, a, b)
  }

  ghost predicate SpelledPairs(buf: bytes, pos: nat, end: nat, props: seq<Pair>)
    decreases props, 0
  {
    if props == [] then pos == end <= |buf|
    else exists at: nat :: SpelledPair(buf, pos, at, props[0]) && SpelledPairs(buf, at, end, props[1..])
  }

  ghost predicate SpelledPair(buf: bytes, pos: nat, end: nat, p: Pair)
    decreases p
  {
    exists at: nat :: Spelled(buf, pos, at, p.key) && Spelled(buf, at, end, p.value)
  }

  ghost predicate SpelledItems(buf: bytes, pos: nat, end: nat, items: seq<Tree>)
    decreases items
  {
    if items == [] then pos == end <= |buf|
    else exists at: nat :: Spelled(buf, pos, at, items[0]) && SpelledItems(buf, at, end, items[1..])
  }

  // --- what is spelled is read ---

  predicate Closes(b: byte) {
    b == '{' as int || b == '$' as int || b == '@' as int
  }

  /** The thirteen tags a value can start with. */
  predicate Tag(b: byte) {
    || b == '0' as int || b == '_' as int || b == 'T' as int || b == 'F' as int || b == 'N' as int
    || b == 'I' as int || b == '"' as int || b == 'c' as int || b == 'S' as int || b == 'o' as int
    || b == 'A' as int || b == 'a' as int || b == '^' as int
  }

  /** No value starts like an end tag or an envelope. */
  lemma FirstByte(buf: bytes, pos: nat, end: nat, t: Tree)
    requires Spelled(buf, pos, end, t)
    ensures pos < end <= |buf| && Tag(buf[pos])
    ensures !Closes(buf[pos]) && buf[pos] != 0xff
  {
    hide SpelledPairs, SpelledItems, SpelledCount, SpelledCounts, SpellsField, SpellsNumber;
  }

  lemma ZigInverts(i: int)
    ensures UnZig(Zig(i)) == i
  {
  }

  lemma UnZigInverts(n: nat)
    ensures Zig(UnZig(n)) == n
  {
  }

  predicate Leaf(t: Tree) {
    !t.TObject? && !t.TDense? && !t.TSparse?
  }

  lemma LeafIsRead(d: Decoder, buf: bytes, pos: nat, end: nat, t: Tree)
    requires Leaf(t) && Spelled(buf, pos, end, t)
    ensures ReadLeaf(d, buf, pos) == Some((Normal(d, t), end))
  {
    hide ReadVarintSpec, SpellsNumber, Zig, UnZig, Latin1;
    match t
    case TInt(i) =>
      ReadVarintExact(buf, pos + 1, Zig(i), end);
      ZigInverts(i);
    case TStr(e, raw) =>
      var at: nat :| SpellsNumber(buf, pos + 1, at, |raw|) && end == at + |raw| <= |buf| && raw == buf[at..end];
      ReadVarintExact(buf, pos + 1, |raw|, at);
    case TBackReference(id) => ReadVarintExact(buf, pos + 1, id, end);
    case _ =>
  }

  /** `h` more levels may be opened at `depth`. */
  predicate Fits(depth: nat, h: nat) {
    h == 0 || depth + h <= MAX_DEPTH
  }

  lemma {:induction false} PairsAreRead(d: Decoder, buf: bytes, pos: nat, end: nat, depth: nat, close: byte, props: seq<Pair>)
    requires SpelledPairs(buf, pos, end, props) && Closes(close) && end < |buf| && buf[end] == close
    ensures ReadProps(d, buf, pos, depth, close) ==
      if Fits(depth, PropsHeight(props)) then Some((NormalProps(d, props), end + 1)) else None
    decreases props, 0
  {
    hide Read, Spelled, Height, Normal, Closes;
    if props != [] {
      var at: nat :| SpelledPair(buf, pos, at, props[0]) && SpelledPairs(buf, at, end, props[1..]);
      PairIsRead(d, buf, pos, at, depth, props[0]);
      PairsAreRead(d, buf, at, end, depth, close, props[1..]);
      NotTheEnd(buf, pos, at, close, props[0]);
    }
  }

  lemma NotTheEnd(buf: bytes, pos: nat, end: nat, close: byte, pair: Pair)
    requires Closes(close) && SpelledPair(buf, pos, end, pair)
    ensures pos < |buf| && buf[pos] != close
  {
    hide Spelled;
    var at: nat :| Spelled(buf, pos, at, pair.key) && Spelled(buf, at, end, pair.value);
    FirstByte(buf, pos, at, pair.key);
  }

  /** A key and its value, read one after the other. */
  ghost function ReadPair(d: Decoder, buf: bytes, pos: nat, depth: nat): Option<(Prop, nat)> {
    match Read(d, buf, pos, depth)
    case None => None
    case Some((key, p1)) =>
      match Read(d, buf, p1, depth)
      case None => None
      case Some((value, p2)) => Some((Prop(key, value), p2))
  }

  lemma PairIsRead(d: Decoder, buf: bytes, pos: nat, end: nat, depth: nat, pair: Pair)
    requires SpelledPair(buf, pos, end, pair)
    ensures ReadPair(d, buf, pos, depth) ==
      if Fits(depth, PairHeight(pair)) then Some((NormalPair(d, pair), end)) else None
    decreases pair
  {
    hide Read, Spelled, Normal;
    var at: nat :| Spelled(buf, pos, at, pair.key) && Spelled(buf, at, end, pair.value);
    SpelledIsRead(d, buf, pos, at, depth, pair.key);
    SpelledIsRead(d, buf, at, end, depth, pair.value);
  }

  lemma {:induction false} ItemsAreRead(d: Decoder, buf: bytes, pos: nat, end: nat, depth: nat, items: seq<Tree>)
    requires SpelledItems(buf, pos, end, items) && pos <= |buf|
    ensures pos + |items| <= end <= |buf|
    ensures ReadItems(d, buf, pos, depth, |items|) ==
      if Fits(depth, ItemsHeight(items)) then Some((NormalItems(d, items), end)) else None
    decreases items
  {
    hide Read, Spelled, Normal;
    if items != [] {
      var at: nat :| Spelled(buf, pos, at, items[0]) && SpelledItems(buf, at, end, items[1..]);
      FirstByte(buf, pos, at, items[0]);
      SpelledIsRead(d, buf, pos, at, depth, items[0]);
      ItemsAreRead(d, buf, at, end, depth, items[1..]);
    }
  }

  lemma CountsAreRead(buf: bytes, pos: nat, end: nat, tag: byte, a: nat, b: nat)
    requires SpelledCounts(buf, pos, end, tag, a, b)
    ensures pos < |buf| && buf[pos] == tag && ReadTwo(buf, pos + 1) == Some(end)
  {
    hide ReadVarintSpec, SpellsNumber;
    var at: nat :| SpelledCount(buf, pos, at, tag, a) && SpellsNumber(buf, at, end, b);
    ReadVarintExact(buf, pos + 1, a, at);
    ReadVarintExact(buf, at, b, end);
  }

  lemma PairEnds(buf: bytes, pos: nat, end: nat, pair: Pair)
    requires SpelledPair(buf, pos, end, pair)
    ensures pos < end <= |buf|
  {
    hide Spelled;
    var at: nat :| Spelled(buf, pos, at, pair.key) && Spelled(buf, at, end, pair.value);
    FirstByte(buf, pos, at, pair.key);
    FirstByte(buf, at, end, pair.value);
  }

  lemma PairsEnd(buf: bytes, pos: nat, end: nat, props: seq<Pair>)
    requires SpelledPairs(buf, pos, end, props)
    ensures pos <= end <= |buf|
    decreases props
  {
    hide Spelled;
    if props != [] {
      var at: nat :| SpelledPair(buf, pos, at, props[0]) && SpelledPairs(buf, at, end, props[1..]);
      PairEnds(buf, pos, at, props[0]);
      PairsEnd(buf, at, end, props[1..]);
    }
  }

  lemma ObjectIsRead(d: Decoder, buf: bytes, pos: nat, end: nat, depth: nat, props: seq<Pair>, count: nat)
    requires SpelledFields(buf, pos, end, props, count)
    ensures pos <= |buf|
    ensures ReadObject(d, buf, pos, depth) ==
      if Fits(depth, PropsHeight(props)) then Some((Obj(Fields(NormalProps(d, props), map[])), end)) else None
    decreases props, 2
  {
    hide SpelledPairs, SpellsNumber, ReadProps, NormalProps, PropsHeight, ReadVarintSpec, Fields, Fits;
    var at: nat :| SpelledPairs(buf, pos, at, props) && SpelledCount(buf, at, end, '{' as int, count);
    PairsEnd(buf, pos, at, props);
    PairsAreRead(d, buf, pos, at, depth, '{' as int, props);
    ReadVarintExact(buf, at + 1, count, end);
  }

  lemma SparseIsRead(d: Decoder, buf: bytes, pos: nat, end: nat, depth: nat, n: nat, props: seq<Pair>, a: nat, b: nat)
    requires SpelledSparse(buf, pos, end, n, props, a, b)
    ensures pos <= |buf|
    ensures ReadSparse(d, buf, pos, depth) ==
      if Fits(depth, PropsHeight(props))
      then Some((List(InOrder(Indexed(NormalProps(d, props), map[]))), end)) else None
    decreases props, 2
  {
    hide SpelledPairs, SpellsNumber, SpelledCounts, ReadProps, NormalProps, PropsHeight, ReadVarintSpec,
      ReadTwo, Indexed, InOrder, Fits;
    var p1: nat, p2: nat :| SpellsNumber(buf, pos, p1, n) && SpelledPairs(buf, p1, p2, props) &&
      SpelledCounts(buf, p2, end, '@' as int, a, b);
    ReadVarintExact(buf, pos, n, p1);
    PairsEnd(buf, p1, p2, props);
    CountsAreRead(buf, p2, end, '@' as int, a, b);
    PairsAreRead(d, buf, p1, p2, depth, '@' as int, props);
  }

  lemma DenseIsRead(d: Decoder, buf: bytes, pos: nat, end: nat, depth: nat,
      items: seq<Tree>, props: seq<Pair>, a: nat, b: nat)
    requires SpelledDense(buf, pos, end, items, props, a, b)
    ensures pos <= |buf|
    ensures ReadDense(d, buf, pos, depth) ==
      if Fits(depth, ItemsHeight(items)) && Fits(depth, PropsHeight(props))
      then Some((List(NormalItems(d, items)), end)) else None
    decreases TDense(items, props, a, b), 0
  {
    hide SpelledPairs, SpelledItems, SpellsNumber, SpelledCounts, ReadProps, ReadItems, NormalProps, NormalItems,
      PropsHeight, ItemsHeight, ReadVarintSpec, ReadTwo, Fits;
    var p1: nat, p2: nat, p3: nat :| SpellsNumber(buf, pos, p1, |items|) && SpelledItems(buf, p1, p2, items) &&
      SpelledPairs(buf, p2, p3, props) && SpelledCounts(buf, p3, end, '$' as int, a, b);
    ReadVarintExact(buf, pos, |items|, p1);
    ItemsAreRead(d, buf, p1, p2, depth, items);
    PairsEnd(buf, p2, p3, props);
    CountsAreRead(buf, p3, end, '$' as int, a, b);
    PairsAreRead(d, buf, p2, p3, depth, '$' as int, props);
  }

  /** A value spelled there is read whole if its height fits below `depth`, and refused
      if not. */
  lemma {:induction false} SpelledIsRead(d: Decoder, buf: bytes, pos: nat, end: nat, depth: nat, t: Tree)
    requires Spelled(buf, pos, end, t)
    ensures Read(d, buf, pos, depth) == if depth + Height(t) <= MAX_DEPTH then Some((Normal(d, t), end)) else None
    decreases t, 1
  {
    hide ReadObject, ReadDense, ReadSparse, ReadLeaf, SpelledFields, SpelledDense, SpelledSparse, SpellsField,
      SpellsNumber, NormalProps, NormalItems, InOrder, Indexed, Fields;
    FirstByte(buf, pos, end, t);
    if depth < MAX_DEPTH {
      match t
      case TObject(props, count) => ObjectIsRead(d, buf, pos + 1, end, depth + 1, props, count);
      case TDense(items, props, a, b) => DenseIsRead(d, buf, pos + 1, end, depth + 1, items, props, a, b);
      case TSparse(n, props, a, b) => SparseIsRead(d, buf, pos + 1, end, depth + 1, n, props, a, b);
      case _ => LeafIsRead(d, buf, pos, end, t);
    }
  }

  // --- what is read is spelled ---

  lemma LeafIsSpelled(d: Decoder, buf: bytes, pos: nat) returns (t: Tree)
    requires pos < |buf| && ReadLeaf(d, buf, pos).Some?
    ensures var (v, end) := ReadLeaf(d, buf, pos).value; Leaf(t) && Spelled(buf, pos, end, t) && Normal(d, t) == v
  {
    hide ReadVarintSpec, SpellsNumber, Zig, UnZig, Latin1;
    var tag := buf[pos];
    var end := ReadLeaf(d, buf, pos).value.1;
    if tag == '0' as int { return TNull; }
    if tag == '_' as int { return TUndefined; }
    if tag == 'T' as int || tag == 'F' as int { return TBool(tag == 'T' as int); }
    if tag == 'N' as int { return TDouble(buf[pos + 1..end]); }
    var (n, at) := ReadVarintSpec(buf, pos + 1).value;
    ReadVarintExact(buf, pos + 1, n, at);
    UnZigInverts(n);
    ZigInverts(UnZig(n));
    if tag == 'I' as int { return TInt(UnZig(n)); }
    if tag == '^' as int { return TBackReference(n); }
    assert |buf[at..end]| == n && SpellsField(buf, pos + 1, end, buf[at..end]);
    return TStr(if tag == '"' as int then OneByte else if tag == 'c' as int then TwoByte else Utf8, buf[at..end]);
  }

  lemma {:induction false} PropsAreSpelled(d: Decoder, buf: bytes, pos: nat, depth: nat, close: byte) returns (props: seq<Pair>)
    requires pos <= |buf| && ReadProps(d, buf, pos, depth, close).Some?
    ensures var (ps, end) := ReadProps(d, buf, pos, depth, close).value;
      && NormalProps(d, props) == ps && buf[end - 1] == close && SpelledPairs(buf, pos, end - 1, props)
    decreases |buf| - pos, 2
  {
    hide Read, Spelled, Normal;
    if buf[pos] == close {
      props := [];
    } else {
      var (_, p1) := Read(d, buf, pos, depth).value;
      var (_, p2) := Read(d, buf, p1, depth).value;
      var end := ReadProps(d, buf, pos, depth, close).value.1;
      var key := ReadIsSpelled(d, buf, pos, depth);
      var value := ReadIsSpelled(d, buf, p1, depth);
      var rest := PropsAreSpelled(d, buf, p2, depth, close);
      var pair := Pair(key, value);
      assert SpelledPair(buf, pos, p2, pair);
      PairsMore(buf, pos, p2, end - 1, pair, rest);
      props := [pair] + rest;
      assert props[1..] == rest;
    }
  }

  lemma PairsMore(buf: bytes, pos: nat, at: nat, end: nat, pair: Pair, rest: seq<Pair>)
    requires SpelledPair(buf, pos, at, pair) && SpelledPairs(buf, at, end, rest)
    ensures SpelledPairs(buf, pos, end, [pair] + rest)
  {
    hide SpelledPair;
    assert ([pair] + rest)[1..] == rest;
  }

  lemma ItemsMore(buf: bytes, pos: nat, at: nat, end: nat, t: Tree, rest: seq<Tree>)
    requires Spelled(buf, pos, at, t) && SpelledItems(buf, at, end, rest)
    ensures SpelledItems(buf, pos, end, [t] + rest)
  {
    hide Spelled;
    assert ([t] + rest)[1..] == rest;
  }

  lemma {:induction false} ItemsAreSpelled(d: Decoder, buf: bytes, pos: nat, depth: nat, n: nat) returns (items: seq<Tree>)
    requires pos <= |buf| && ReadItems(d, buf, pos, depth, n).Some?
    ensures var (vs, end) := ReadItems(d, buf, pos, depth, n).value;
      |items| == n && NormalItems(d, items) == vs && SpelledItems(buf, pos, end, items)
    decreases |buf| - pos, 2
  {
    hide Read, Spelled, Normal;
    if n == 0 {
      items := [];
    } else {
      var (_, p1) := Read(d, buf, pos, depth).value;
      var end := ReadItems(d, buf, pos, depth, n).value.1;
      var t := ReadIsSpelled(d, buf, pos, depth);
      var rest := ItemsAreSpelled(d, buf, p1, depth, n - 1);
      ItemsMore(buf, pos, p1, end, t, rest);
      items := [t] + rest;
      assert items[1..] == rest;
    }
  }

  lemma CountsAreSpelled(buf: bytes, pos: nat, tag: byte) returns (a: nat, b: nat)
    requires pos < |buf| && buf[pos] == tag && ReadTwo(buf, pos + 1).Some?
    ensures SpelledCounts(buf, pos, ReadTwo(buf, pos + 1).value, tag, a, b)
    ensures pos < ReadTwo(buf, pos + 1).value <= |buf|
  {
    hide ReadVarintSpec, SpellsNumber;
    var (n, at) := ReadVarintSpec(buf, pos + 1).value;
    var (m, end) := ReadVarintSpec(buf, at).value;
    ReadVarintExact(buf, pos + 1, n, at);
    ReadVarintExact(buf, at, m, end);
    a, b := n, m;
    assert SpelledCount(buf, pos, at, tag, a);
  }

  lemma ObjectIsSpelled(d: Decoder, buf: bytes, pos: nat, depth: nat) returns (t: Tree)
    requires pos < |buf| && buf[pos] == 'o' as int && ReadObject(d, buf, pos + 1, depth).Some?
    ensures var (v, end) := ReadObject(d, buf, pos + 1, depth).value; Spelled(buf, pos, end, t) && Normal(d, t) == v
    decreases |buf| - pos, 0
  {
    hide ReadProps, ReadVarintSpec, SpelledPairs, SpellsNumber, NormalProps, Fields;
    var (_, p) := ReadProps(d, buf, pos + 1, depth, '{' as int).value;
    var (count, end) := ReadVarintSpec(buf, p).value;
    var props := PropsAreSpelled(d, buf, pos + 1, depth, '{' as int);
    ReadVarintExact(buf, p, count, end);
    assert SpelledCount(buf, p - 1, end, '{' as int, count);
    return TObject(props, count);
  }

  lemma DenseIsSpelled(d: Decoder, buf: bytes, pos: nat, depth: nat) returns (t: Tree)
    requires pos < |buf| && buf[pos] == 'A' as int && ReadDense(d, buf, pos + 1, depth).Some?
    ensures var (v, end) := ReadDense(d, buf, pos + 1, depth).value; Spelled(buf, pos, end, t) && Normal(d, t) == v
    decreases |buf| - pos, 0
  {
    hide ReadProps, ReadItems, ReadVarintSpec, ReadTwo, SpelledPairs, SpelledItems, SpelledCounts, SpellsNumber,
      NormalProps, NormalItems;
    var (n, p1) := ReadVarintSpec(buf, pos + 1).value;
    var (_, p2) := ReadItems(d, buf, p1, depth, n).value;
    var (_, p3) := ReadProps(d, buf, p2, depth, '$' as int).value;
    ReadVarintExact(buf, pos + 1, n, p1);
    var items := ItemsAreSpelled(d, buf, p1, depth, n);
    var props := PropsAreSpelled(d, buf, p2, depth, '$' as int);
    var a, b := CountsAreSpelled(buf, p3 - 1, '$' as int);
    var end := ReadDense(d, buf, pos + 1, depth).value.1;
    assert SpelledPairs(buf, p2, p3 - 1, props) && SpelledCounts(buf, p3 - 1, end, '$' as int, a, b);
    assert SpelledDense(buf, pos + 1, end, items, props, a, b);
    return TDense(items, props, a, b);
  }

  lemma SparseIsSpelled(d: Decoder, buf: bytes, pos: nat, depth: nat) returns (t: Tree)
    requires pos < |buf| && buf[pos] == 'a' as int && ReadSparse(d, buf, pos + 1, depth).Some?
    ensures var (v, end) := ReadSparse(d, buf, pos + 1, depth).value; Spelled(buf, pos, end, t) && Normal(d, t) == v
    decreases |buf| - pos, 0
  {
    hide ReadProps, ReadVarintSpec, ReadTwo, SpelledPairs, SpelledCounts, SpellsNumber, NormalProps, InOrder, Indexed;
    var (n, p1) := ReadVarintSpec(buf, pos + 1).value;
    var (_, p2) := ReadProps(d, buf, p1, depth, '@' as int).value;
    ReadVarintExact(buf, pos + 1, n, p1);
    var props := PropsAreSpelled(d, buf, p1, depth, '@' as int);
    var a, b := CountsAreSpelled(buf, p2 - 1, '@' as int);
    var end := ReadSparse(d, buf, pos + 1, depth).value.1;
    assert SpelledPairs(buf, p1, p2 - 1, props) && SpelledCounts(buf, p2 - 1, end, '@' as int, a, b);
    assert SpelledSparse(buf, pos + 1, end, n, props, a, b);
    return TSparse(n, props, a, b);
  }

  lemma {:induction false} ReadIsSpelled(d: Decoder, buf: bytes, pos: nat, depth: nat) returns (t: Tree)
    requires Read(d, buf, pos, depth).Some?
    ensures var (v, end) := Read(d, buf, pos, depth).value; Spelled(buf, pos, end, t) && Normal(d, t) == v
    decreases |buf| - pos, 1
  {
    hide ReadObject, ReadDense, ReadSparse, ReadLeaf, Spelled, Normal;
    if buf[pos] == 'o' as int {
      t := ObjectIsSpelled(d, buf, pos, depth + 1);
    } else if buf[pos] == 'A' as int {
      t := DenseIsSpelled(d, buf, pos, depth + 1);
    } else if buf[pos] == 'a' as int {
      t := SparseIsSpelled(d, buf, pos, depth + 1);
    } else {
      t := LeafIsSpelled(d, buf, pos);
    }
  }

  /** The reader returns a value exactly when a tree that fits under the depth limit is
      spelled there and means it. */
  lemma ReadExact(d: Decoder, buf: bytes, pos: nat, depth: nat, v: Value, end: nat)
    ensures Read(d, buf, pos, depth) == Some((v, end)) <==>
      exists t :: Spelled(buf, pos, end, t) && depth + Height(t) <= 64 && Normal(d, t) == v
  {
    hide Read, Spelled, Normal, Height;
    if Read(d, buf, pos, depth) == Some((v, end)) {
      var t := ReadIsSpelled(d, buf, pos, depth);
      SpelledIsRead(d, buf, pos, end, depth, t);
    }
    if t :| Spelled(buf, pos, end, t) && depth + Height(t) <= 64 && Normal(d, t) == v {
      SpelledIsRead(d, buf, pos, end, depth, t);
    }
  }

  // --- the serializer spells ---

  lemma VarintSpells(buf: bytes, pos: nat, n: nat, rest: bytes)
    requires n < VARINT_LIMIT && At(buf, pos, Varint(n) + rest)
    ensures SpellsNumber(buf, pos, pos + |Varint(n)|, n) && At(buf, pos + |Varint(n)|, rest)
  {
    hide Varint, ReadVarintSpec, SpellsNumber, At;
    AtSplit(buf, pos, Varint(n), rest);
    ReadVarintInverts(buf, pos, n);
    ReadVarintExact(buf, pos, n, pos + |Varint(n)|);
  }

  lemma Tagged(buf: bytes, pos: nat, tag: byte, rest: bytes)
    requires At(buf, pos, [tag] + rest)
    ensures pos < |buf| && buf[pos] == tag && At(buf, pos + 1, rest)
  {
    AtHead(buf, pos, [tag] + rest);
    assert ([tag] + rest)[1..] == rest;
  }

  lemma AtInside(buf: bytes, pos: nat, x: bytes)
    requires At(buf, pos, x)
    ensures pos + |x| <= |buf|
  {
  }

  lemma LeafSpells(buf: bytes, pos: nat, t: Tree)
    requires Leaf(t) && Expressible(t) && At(buf, pos, Serialize(t))
    ensures Spelled(buf, pos, pos + |Serialize(t)|, t)
  {
    hide Varint, SpellsNumber, Zig;
    AtInside(buf, pos, Serialize(t));
    AtHead(buf, pos, Serialize(t));
    match t
    case TInt(i) =>
      assert Serialize(t)[1..] == Varint(Zig(i)) + [];
      VarintSpells(buf, pos + 1, Zig(i), []);
    case TDouble(raw) => assert Serialize(t)[1..] == raw;
    case TStr(e, raw) =>
      assert Serialize(t)[1..] == Varint(|raw|) + raw;
      VarintSpells(buf, pos + 1, |raw|, raw);
      assert SpellsField(buf, pos + 1, pos + |Serialize(t)|, raw);
    case TBackReference(id) =>
      assert Serialize(t)[1..] == Varint(id) + [];
      VarintSpells(buf, pos + 1, id, []);
    case _ =>
  }

  lemma {:induction false} PropsSpell(buf: bytes, pos: nat, props: seq<Pair>, rest: bytes)
    requires PropsExpressible(props) && At(buf, pos, SerializeProps(props) + rest)
    ensures SpelledPairs(buf, pos, pos + |SerializeProps(props)|, props)
    ensures At(buf, pos + |SerializeProps(props)|, rest)
    decreases props
  {
    hide At, Serialize, Spelled, Expressible;
    AtSplit(buf, pos, SerializeProps(props), rest);
    AtInside(buf, pos, SerializeProps(props));
    if props != [] {
      AtSplit(buf, pos, SerializePair(props[0]), SerializeProps(props[1..]));
      PairSpells(buf, pos, props[0]);
      var at := pos + |SerializePair(props[0])|;
      assert SerializeProps(props[1..]) + [] == SerializeProps(props[1..]);
      PropsSpell(buf, at, props[1..], []);
    }
  }

  lemma PairSpells(buf: bytes, pos: nat, pair: Pair)
    requires PairExpressible(pair) && At(buf, pos, SerializePair(pair))
    ensures SpelledPair(buf, pos, pos + |SerializePair(pair)|, pair)
    decreases pair
  {
    hide At, Serialize, Spelled, Expressible;
    AtSplit(buf, pos, Serialize(pair.key), Serialize(pair.value));
    Spells(buf, pos, pair.key);
    Spells(buf, pos + |Serialize(pair.key)|, pair.value);
  }

  lemma {:induction false} ItemsSpell(buf: bytes, pos: nat, items: seq<Tree>, rest: bytes)
    requires ItemsExpressible(items) && At(buf, pos, SerializeItems(items) + rest)
    ensures SpelledItems(buf, pos, pos + |SerializeItems(items)|, items)
    ensures At(buf, pos + |SerializeItems(items)|, rest)
    decreases items
  {
    hide At, Serialize, Spelled, Expressible;
    AtSplit(buf, pos, SerializeItems(items), rest);
    AtInside(buf, pos, SerializeItems(items));
    if items != [] {
      AtSplit(buf, pos, Serialize(items[0]), SerializeItems(items[1..]));
      Spells(buf, pos, items[0]);
      assert SerializeItems(items[1..]) + [] == SerializeItems(items[1..]);
      ItemsSpell(buf, pos + |Serialize(items[0])|, items[1..], []);
    }
  }

  lemma CountsSpell(buf: bytes, pos: nat, tag: byte, a: nat, b: nat)
    requires a < VARINT_LIMIT && b < VARINT_LIMIT && At(buf, pos, [tag] + (Varint(a) + Varint(b)))
    ensures SpelledCounts(buf, pos, pos + 1 + |Varint(a)| + |Varint(b)|, tag, a, b)
  {
    hide Varint, SpellsNumber, At;
    Tagged(buf, pos, tag, Varint(a) + Varint(b));
    VarintSpells(buf, pos + 1, a, Varint(b));
    assert Varint(b) + [] == Varint(b);
    VarintSpells(buf, pos + 1 + |Varint(a)|, b, []);
    assert SpelledCount(buf, pos, pos + 1 + |Varint(a)|, tag, a);
  }

  lemma {:induction false} ObjectSpells(buf: bytes, pos: nat, props: seq<Pair>, count: nat)
    requires PropsExpressible(props) && count < VARINT_LIMIT && At(buf, pos, Serialize(TObject(props, count)))
    ensures Spelled(buf, pos, pos + |Serialize(TObject(props, count))|, TObject(props, count))
    decreases TObject(props, count), 0
  {
    hide At, SerializeProps, SpelledPairs, SpellsNumber, Varint, PropsExpressible;
    var tail := ['{' as int] + Varint(count);
    AtInside(buf, pos, Serialize(TObject(props, count)));
    Tagged(buf, pos, 'o' as int, SerializeProps(props) + tail);
    PropsSpell(buf, pos + 1, props, tail);
    var at := pos + 1 + |SerializeProps(props)|;
    Tagged(buf, at, '{' as int, Varint(count));
    assert Varint(count) + [] == Varint(count);
    VarintSpells(buf, at + 1, count, []);
    assert SpelledCount(buf, at, at + 1 + |Varint(count)|, '{' as int, count);
  }

  lemma {:induction false} SparseSpells(buf: bytes, pos: nat, n: nat, props: seq<Pair>, a: nat, b: nat)
    requires Expressible(TSparse(n, props, a, b)) && At(buf, pos, Serialize(TSparse(n, props, a, b)))
    ensures Spelled(buf, pos, pos + |Serialize(TSparse(n, props, a, b))|, TSparse(n, props, a, b))
    decreases TSparse(n, props, a, b), 0
  {
    hide At, SerializeProps, SpelledPairs, SpelledCounts, SpellsNumber, Varint, PropsExpressible;
    var tail := ['@' as int] + (Varint(a) + Varint(b));
    AtInside(buf, pos, Serialize(TSparse(n, props, a, b)));
    Tagged(buf, pos, 'a' as int, Varint(n) + (SerializeProps(props) + tail));
    VarintSpells(buf, pos + 1, n, SerializeProps(props) + tail);
    PropsSpell(buf, pos + 1 + |Varint(n)|, props, tail);
    CountsSpell(buf, pos + 1 + |Varint(n)| + |SerializeProps(props)|, '@' as int, a, b);
  }

  lemma {:induction false} DenseSpells(buf: bytes, pos: nat, items: seq<Tree>, props: seq<Pair>, a: nat, b: nat)
    requires Expressible(TDense(items, props, a, b)) && At(buf, pos, Serialize(TDense(items, props, a, b)))
    ensures Spelled(buf, pos, pos + |Serialize(TDense(items, props, a, b))|, TDense(items, props, a, b))
    decreases TDense(items, props, a, b), 0
  {
    hide At, SerializeProps, SerializeItems, SpelledPairs, SpelledItems, SpelledCounts, SpellsNumber, Varint,
      PropsExpressible, ItemsExpressible;
    var tail := ['$' as int] + (Varint(a) + Varint(b));
    var p1 := pos + 1 + |Varint(|items|)|;
    AtInside(buf, pos, Serialize(TDense(items, props, a, b)));
    Tagged(buf, pos, 'A' as int, Varint(|items|) + (SerializeItems(items) + (SerializeProps(props) + tail)));
    VarintSpells(buf, pos + 1, |items|, SerializeItems(items) + (SerializeProps(props) + tail));
    ItemsSpell(buf, p1, items, SerializeProps(props) + tail);
    PropsSpell(buf, p1 + |SerializeItems(items)|, props, tail);
    CountsSpell(buf, p1 + |SerializeItems(items)| + |SerializeProps(props)|, '$' as int, a, b);
  }

  lemma {:induction false} Spells(buf: bytes, pos: nat, t: Tree)
    requires Expressible(t) && At(buf, pos, Serialize(t))
    ensures Spelled(buf, pos, pos + |Serialize(t)|, t)
    decreases t, 1
  {
    hide At, Serialize, Spelled, PropsExpressible;
    match t
    case TObject(props, count) => ObjectSpells(buf, pos, props, count);
    case TDense(items, props, a, b) => DenseSpells(buf, pos, items, props, a, b);
    case TSparse(n, props, a, b) => SparseSpells(buf, pos, n, props, a, b);
    case _ => LeafSpells(buf, pos, t);
  }

  /** One value: read whole if its height fits below `depth`, refused if not. */
  lemma Inverts(d: Decoder, buf: bytes, pos: nat, depth: nat, t: Tree)
    requires Expressible(t) && At(buf, pos, Serialize(t))
    ensures Read(d, buf, pos, depth) ==
      if depth + Height(t) <= MAX_DEPTH then Some((Normal(d, t), pos + |Serialize(t)|)) else None
  {
    hide At, Serialize, Spelled, Expressible, Read, Normal, Height;
    Spells(buf, pos, t);
    SpelledIsRead(d, buf, pos, pos + |Serialize(t)|, depth, t);
  }

  // --- behind the envelopes ---

  /** Version envelopes, however many, stand from `pos` to `at`. */
  ghost predicate Enveloped(buf: bytes, pos: nat, at: nat)
    decreases at - pos
  {
    pos == at ||
    (pos < at && pos < |buf| && buf[pos] == 0xff &&
     exists next: nat :: pos < next <= at && Version(buf, pos + 1, next) && Enveloped(buf, next, at))
  }

  ghost predicate Version(buf: bytes, pos: nat, end: nat) {
    exists n: nat :: SpellsNumber(buf, pos, end, n)
  }

  lemma VersionIsRead(buf: bytes, pos: nat)
    ensures forall end: nat :: Version(buf, pos, end) <==>
      ReadVarintSpec(buf, pos).Some? && ReadVarintSpec(buf, pos).value.1 == end
  {
    hide SpellsNumber, ReadVarintSpec;
    forall end: nat, n: nat
      ensures ReadVarintSpec(buf, pos) == Some((n, end)) <==> SpellsNumber(buf, pos, end, n)
    {
      ReadVarintExact(buf, pos, n, end);
    }
    forall end: nat
      ensures Version(buf, pos, end) <==> ReadVarintSpec(buf, pos).Some? && ReadVarintSpec(buf, pos).value.1 == end
    {
      if ReadVarintSpec(buf, pos).Some? && ReadVarintSpec(buf, pos).value.1 == end {
        assert SpellsNumber(buf, pos, end, ReadVarintSpec(buf, pos).value.0);
      }
    }
  }

  lemma {:induction false} SkipExact(buf: bytes, pos: nat, at: nat)
    requires pos <= |buf|
    ensures SkipEnvelopes(buf, pos) == Some(at) <==> Enveloped(buf, pos, at) && (at >= |buf| || buf[at] != 0xff)
    decreases |buf| - pos
  {
    hide Version, ReadVarintSpec;
    if pos < |buf| && buf[pos] == 0xff {
      VersionIsRead(buf, pos + 1);
      var r := ReadVarintSpec(buf, pos + 1);
      if r.Some? {
        SkipExact(buf, r.value.1, at);
        EnvelopedGoesOn(buf, r.value.1, at);
      }
    }
  }

  lemma {:induction false} EnvelopedGoesOn(buf: bytes, pos: nat, at: nat)
    ensures Enveloped(buf, pos, at) ==> pos <= at
  {
    hide Version;
  }

  /** A parse is a value exactly when, behind whatever envelopes, a tree of up to 64
      levels is spelled that means it; everything else is None. */
  lemma ParseExact(d: Decoder, buf: bytes, v: Value)
    requires v != Null
    ensures ParseSpec(d, buf) == v <==>
      exists at: nat, end: nat, t ::
        Enveloped(buf, 0, at) && Spelled(buf, at, end, t) && Height(t) <= 64 && Normal(d, t) == v
  {
    hide Read, Enveloped, Spelled, Height, Normal, SkipEnvelopes;
    if ParseSpec(d, buf) == v {
      var at := SkipEnvelopes(buf, 0).value;
      var end := Read(d, buf, at, 0).value.1;
      SkipExact(buf, 0, at);
      ReadExact(d, buf, at, 0, v, end);
      var t :| Spelled(buf, at, end, t) && 0 + Height(t) <= 64 && Normal(d, t) == v;
      assert Enveloped(buf, 0, at) && Spelled(buf, at, end, t) && Height(t) <= 64 && Normal(d, t) == v;
    }
    if exists at: nat, end: nat, t :: Enveloped(buf, 0, at) && Spelled(buf, at, end, t) && Height(t) <= 64 && Normal(d, t) == v {
      var at: nat, end: nat, t :| Enveloped(buf, 0, at) && Spelled(buf, at, end, t) && Height(t) <= 64 && Normal(d, t) == v;
      FirstByte(buf, at, end, t);
      SkipExact(buf, 0, at);
      SpelledIsRead(d, buf, at, end, 0, t);
    }
  }

  /** A value that starts with none of the thirteen tags is refused, wherever it
      stands, and behind any envelopes parses to None. */
  lemma UnknownTagIsNone(d: Decoder, buf: bytes, at: nat)
    requires at < |buf| && !Tag(buf[at])
    ensures forall depth: nat :: Read(d, buf, at, depth) == None
    ensures Enveloped(buf, 0, at) && buf[at] != 0xff ==> ParseSpec(d, buf) == Null
  {
    hide Read, Enveloped, Spelled, SkipEnvelopes, Normal, Tag;
    forall depth: nat
      ensures Read(d, buf, at, depth) == None
    {
      if Read(d, buf, at, depth).Some? {
        var t := ReadIsSpelled(d, buf, at, depth);
        FirstByte(buf, at, Read(d, buf, at, depth).value.1, t);
      }
    }
    SkipExact(buf, 0, at);
  }

  function Envelopes(versions: seq<nat>): bytes {
    if versions == [] then [] else [0xff] + Varint(versions[0]) + Envelopes(versions[1..])
  }

  lemma {:induction false} EnvelopesSkipped(buf: bytes, pos: nat, versions: seq<nat>)
    requires forall i :: 0 <= i < |versions| ==> versions[i] < VARINT_LIMIT
    requires At(buf, pos, Envelopes(versions))
    ensures SkipEnvelopes(buf, pos) == SkipEnvelopes(buf, pos + |Envelopes(versions)|)
    decreases |versions|
  {
    hide At, Varint, ReadVarintSpec;
    if versions != [] {
      var rest := Envelopes(versions[1..]);
      assert Envelopes(versions) == [0xff] + (Varint(versions[0]) + rest);
      Tagged(buf, pos, 0xff, Varint(versions[0]) + rest);
      AtSplit(buf, pos + 1, Varint(versions[0]), rest);
      ReadVarintInverts(buf, pos + 1, versions[0]);
      EnvelopesSkipped(buf, pos + 1 + |Varint(versions[0])|, versions[1..]);
    }
  }

  /** Behind any envelopes and before anything, a tree of up to 64 levels comes
      back normalized and a deeper one as None. */
  lemma ParseInverts(d: Decoder, versions: seq<nat>, t: Tree, after: bytes)
    requires forall i :: 0 <= i < |versions| ==> versions[i] < VARINT_LIMIT
    requires Expressible(t)
    ensures ParseSpec(d, Envelopes(versions) + Serialize(t) + after) ==
      if Height(t) <= MAX_DEPTH then Normal(d, t) else Null
  {
    hide At, Read, Serialize, Spelled, Normal, Height, Expressible, Envelopes, ReadVarintSpec;
    var head := Envelopes(versions);
    var buf := head + Serialize(t) + after;
    assert buf == [] + head + (Serialize(t) + after);
    AtWhole([], head, Serialize(t) + after);
    AtWhole(head, Serialize(t), after);
    EnvelopesSkipped(buf, 0, versions);
    Spells(buf, |head|, t);
    FirstByte(buf, |head|, |head| + |Serialize(t)|, t);
    Inverts(d, buf, |head|, 0, t);
  }
}
