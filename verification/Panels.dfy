/** Pages for the board: what is cut, how long a line can get, and that each slot on
    the glass shows its page. */
module Panels {
  import opened Wrappers

  const PANEL_MAX: nat := 4
  const ROWS_MAX: nat := 5
  const TILES_MAX: nat := 6
  const TILES_ONE_ROW: nat := 4
  const ROWS_WITH_MANY_TILES: nat := 2
  const TITLE_MAX: nat := 20
  const LABEL_MAX: nat := 14
  const VALUE_MAX: nat := 18
  const TILE_MAX: nat := 12
  const LINE_BUDGET: nat := 480

  datatype Tone = Dim | Fine | Warn | Bad

  function ToneName(t: Tone): string {
    match t case Dim => "dim" case Fine => "ok" case Warn => "warn" case Bad => "bad"
  }

  datatype Row = Row(key: string, value: string, tone: Option<Tone>)

  datatype Page = Page(title: string, rows: seq<Row>, tiles: seq<string>)

  function Cut(s: string, n: nat): (r: string)
    ensures |r| <= n && r <= s && (|s| <= n ==> r == s)
  {
    if |s| <= n then s else s[..n]
  }

  function CutRow(r: Row): Row {
    Row(Cut(r.key, LABEL_MAX), Cut(r.value, VALUE_MAX), r.tone)
  }

  function Firsts<T>(s: seq<T>, n: nat): seq<T> {
    if |s| <= n then s else s[..n]
  }

  /** A page as it is kept: two rows of tiles leave room for two rows of text. */
  function Built(title: string, rows: seq<Row>, tiles: seq<string>): (p: Page)
    ensures Fits(p)
  {
    var kept := if |tiles| > TILES_ONE_ROW && |rows| > ROWS_WITH_MANY_TILES then rows[..ROWS_WITH_MANY_TILES] else rows;
    var shown, pressed := Firsts(kept, ROWS_MAX), Firsts(tiles, TILES_MAX);
    Page(Cut(title, TITLE_MAX),
         seq(|shown|, i requires 0 <= i < |shown| => CutRow(shown[i])),
         seq(|pressed|, i requires 0 <= i < |pressed| => Cut(pressed[i], TILE_MAX)))
  }

  /** Nothing on it is longer than the glass has room for. */
  ghost predicate Fits(p: Page) {
    && |p.title| <= TITLE_MAX && |p.rows| <= ROWS_MAX && |p.tiles| <= TILES_MAX
    && (|p.tiles| > TILES_ONE_ROW ==> |p.rows| <= ROWS_WITH_MANY_TILES)
    && (forall i :: 0 <= i < |p.rows| ==> |p.rows[i].key| <= LABEL_MAX && |p.rows[i].value| <= VALUE_MAX)
    && (forall i :: 0 <= i < |p.tiles| ==> |p.tiles[i]| <= TILE_MAX)
  }

  // --- the line ---

  datatype Value = Text(text: string) | Digit(d: nat)

  /** A message's members in order. */
  type Line = seq<(string, Value)>

  function RowMembers(rows: seq<Row>): Line {
    if rows == [] then []
    else
      var n := |rows| - 1;
      RowMembers(rows[..n]) +
      [("l" + Nth(n), Text(rows[n].key)), ("v" + Nth(n), Text(rows[n].value))] +
      match rows[n].tone case Some(t) => [("c" + Nth(n), Text(ToneName(t)))] case None => []
  }

  function TileMembers(tiles: seq<string>): Line {
    if tiles == [] then []
    else TileMembers(tiles[..|tiles| - 1]) + [("b" + Nth(|tiles| - 1), Text(tiles[|tiles| - 1]))]
  }

  /** A single digit: rows and tiles are fewer than ten. */
  function Nth(n: nat): string {
    if n < 10 then [('0' as int + n) as char] else "9"
  }

  function MessageOf(p: Page, slot: nat): Line {
    [("t", Text("panel")), ("v", Digit(2)), ("p", Digit(slot)), ("title", Text(p.title)),
     ("n", Digit(|p.rows|)), ("tn", Digit(|p.tiles|))] + RowMembers(p.rows) + TileMembers(p.tiles)
  }

  /** Bytes a text takes, quoted: each character its own number of them. */
  function Quoted(s: string, width: char -> nat): nat {
    if s == "" then 2 else Quoted(s[..|s| - 1], width) + width(s[|s| - 1])
  }

  function MembersLength(line: Line, width: char -> nat): nat {
    if line == [] then 0
    else
      var (k, v) := line[|line| - 1];
      MembersLength(line[..|line| - 1], width) + |k| + 4 + match v case Text(s) => Quoted(s, width) case Digit(_) => 1
  }

  /** The line as written: braces, members with their commas, and the newline. */
  function Encoded(line: Line, width: char -> nat): nat {
    MembersLength(line, width) + 2
  }

  /** A text in quotes, each character written its own way. */
  function InQuotes(s: string, escape: char -> string): string {
    "\"" + Escaped(s, escape) + "\""
  }

  function Escaped(s: string, escape: char -> string): string {
    if s == "" then "" else escape(s[0]) + Escaped(s[1..], escape)
  }

  function Rendered(m: (string, Value), escape: char -> string): string {
    "\"" + m.0 + "\":" + match m.1 case Text(s) => InQuotes(s, escape) case Digit(d) => Decimal(d)
  }

  function Listed(line: Line, escape: char -> string): string {
    if line == [] then ""
    else Rendered(line[0], escape) + if |line| == 1 then "" else "," + Listed(line[1..], escape)
  }

  /** The line as compact JSON. */
  function Json(line: Line, escape: char -> string): string {
    "{" + Listed(line, escape) + "}\n"
  }

  /** No character takes more than six bytes, which is what an escaped control takes. */
  ghost predicate Narrow(width: char -> nat) {
    forall ch :: width(ch) <= 6
  }

  function TooLong(line: Line, width: char -> nat): nat {
    if Encoded(line, width) > LINE_BUDGET then Encoded(line, width) - LINE_BUDGET else 0
  }

  function Decimal(n: nat): string {
    (if n < 10 then "" else Decimal(n / 10)) + [('0' as int + n % 10) as char]
  }

  /** What is sent for a page: itself, or one that says how much too long it is. */
  function Sendable(p: Page, slot: nat, width: char -> nat): Line {
    var line := MessageOf(p, slot);
    var over := TooLong(line, width);
    if over > 0
    then MessageOf(Built(p.title, [Row("Too long", "by " + Decimal(over) + " bytes", Some(Bad))], []), slot)
    else line
  }

  lemma {:induction false} QuotedAtMost(s: string, width: char -> nat)
    requires Narrow(width)
    ensures Quoted(s, width) <= 2 + 6 * |s|
  {
    if s != "" {
      QuotedAtMost(s[..|s| - 1], width);
    }
  }

  lemma {:induction false} MembersJoin(a: Line, b: Line, width: char -> nat)
    ensures MembersLength(a + b, width) == MembersLength(a, width) + MembersLength(b, width)
    decreases |b|
  {
    hide Quoted;
    if b == [] {
      assert a + b == a;
    } else {
      MembersJoin(a, b[..|b| - 1], width);
      assert (a + b)[..|a + b| - 1] == a + b[..|b| - 1];
    }
  }

  lemma OneMember(k: string, v: Value, width: char -> nat)
    ensures MembersLength([(k, v)], width) == |k| + 4 + match v case Text(s) => Quoted(s, width) case Digit(_) => 1
  {
    hide Quoted;
    assert [(k, v)][..0] == [];
  }

  lemma {:induction false} QuotedJoin(a: string, b: string, width: char -> nat)
    ensures Quoted(a + b, width) + 2 == Quoted(a, width) + Quoted(b, width)
    decreases |b|
  {
    if b == "" {
      assert a + b == a;
    } else {
      QuotedJoin(a, b[..|b| - 1], width);
      assert (a + b)[..|a + b| - 1] == a + b[..|b| - 1];
    }
  }

  lemma {:induction false} EscapedLength(s: string, escape: char -> string)
    ensures Quoted(s, ch => |escape(ch)|) == |InQuotes(s, escape)|
  {
    if s != "" {
      var width := (ch: char) => |escape(ch)|;
      EscapedLength(s[1..], escape);
      assert [s[0]] + s[1..] == s && [s[0]][..0] == "";
      QuotedJoin([s[0]], s[1..], width);
    }
  }

  lemma {:induction false} ListedLength(line: Line, escape: char -> string)
    requires forall i :: 0 <= i < |line| && line[i].1.Digit? ==> line[i].1.d < 10
    ensures line != [] ==> MembersLength(line, ch => |escape(ch)|) == |Listed(line, escape)| + 1
  {
    hide Quoted, InQuotes, MembersLength;
    if line != [] {
      var width := (ch: char) => |escape(ch)|;
      var (k, v) := line[0];
      assert line == [line[0]] + line[1..];
      MembersJoin([line[0]], line[1..], width);
      OneMember(k, v, width);
      if v.Text? {
        EscapedLength(v.text, escape);
      }
      if |line| == 1 {
        assert line[1..] == [];
        NoMembers(width);
      } else {
        ListedLength(line[1..], escape);
      }
    }
  }

  /** The length a line is judged by is that of its JSON text. */
  lemma EncodedIsJson(p: Page, slot: nat, escape: char -> string)
    requires slot < 4 && |p.rows| <= 5 && |p.tiles| <= 6
    ensures Encoded(MessageOf(p, slot), ch => |escape(ch)|) == |Json(MessageOf(p, slot), escape)|
  {
    hide Listed, MembersLength, RowMembers, TileMembers;
    RowsAreTexts(p.rows);
    TilesAreTexts(p.tiles);
    ListedLength(MessageOf(p, slot), escape);
  }

  lemma {:induction false} RowsAreTexts(rows: seq<Row>)
    ensures forall i :: 0 <= i < |RowMembers(rows)| ==> RowMembers(rows)[i].1.Text?
  {
    if rows != [] {
      RowsAreTexts(rows[..|rows| - 1]);
    }
  }

  lemma {:induction false} TilesAreTexts(tiles: seq<string>)
    ensures forall i :: 0 <= i < |TileMembers(tiles)| ==> TileMembers(tiles)[i].1.Text?
  {
    if tiles != [] {
      TilesAreTexts(tiles[..|tiles| - 1]);
    }
  }

  /** The six members every panel message starts with. */
  lemma HeadLength(p: Page, slot: nat, width: char -> nat)
    requires Narrow(width) && |p.title| <= TITLE_MAX
    ensures MembersLength(MessageOf(p, slot), width) <=
            193 + MembersLength(RowMembers(p.rows), width) + MembersLength(TileMembers(p.tiles), width)
  {
    hide Quoted, MembersLength, RowMembers, TileMembers;
    var a, b, c := ("t", Text("panel")), ("v", Digit(2)), ("p", Digit(slot));
    var d, e, f := ("title", Text(p.title)), ("n", Digit(|p.rows|)), ("tn", Digit(|p.tiles|));
    var head := [a, b, c, d, e, f];
    assert head == ((((([a] + [b]) + [c]) + [d]) + [e]) + [f]);
    MembersJoin([a], [b], width);
    MembersJoin([a] + [b], [c], width);
    MembersJoin(([a] + [b]) + [c], [d], width);
    MembersJoin((([a] + [b]) + [c]) + [d], [e], width);
    MembersJoin(((([a] + [b]) + [c]) + [d]) + [e], [f], width);
    OneMember("t", Text("panel"), width);
    OneMember("v", Digit(2), width);
    OneMember("p", Digit(slot), width);
    OneMember("title", Text(p.title), width);
    OneMember("n", Digit(|p.rows|), width);
    OneMember("tn", Digit(|p.tiles|), width);
    QuotedAtMost("panel", width);
    QuotedAtMost(p.title, width);
    MembersJoin(head, RowMembers(p.rows), width);
    MembersJoin(head + RowMembers(p.rows), TileMembers(p.tiles), width);
  }

  lemma OneRowLength(r: Row, width: char -> nat)
    requires Narrow(width) && |r.key| <= 8 && |r.value| <= VALUE_MAX && (r.tone.Some? ==> r.tone == Some(Bad))
    ensures MembersLength(RowMembers([r]), width) <= 198
    ensures MembersLength(TileMembers([]), width) == 0
  {
    hide Quoted, MembersLength;
    var a, b, c := ("l" + Nth(0), Text(r.key)), ("v" + Nth(0), Text(r.value)), ("c" + Nth(0), Text("bad"));
    assert [r][..0] == [];
    assert RowMembers([r]) == ([a] + [b]) + if r.tone.Some? then [c] else [];
    MembersJoin([a], [b], width);
    MembersJoin([a] + [b], [c], width);
    OneMember(a.0, a.1, width);
    OneMember(b.0, b.1, width);
    OneMember(c.0, c.1, width);
    QuotedAtMost(r.key, width);
    QuotedAtMost(r.value, width);
    QuotedAtMost("bad", width);
    NoMembers(width);
    assert ([a] + [b]) + [] == [a] + [b];
  }

  lemma NoMembers(width: char -> nat)
    ensures MembersLength([], width) == 0
  {
  }

  /** Every line sent for a page fits the budget, the notice that one did not included,
      whatever the strings and however wide their characters. */
  lemma SendableFits(p: Page, slot: nat, width: char -> nat)
    requires Narrow(width)
    ensures Encoded(Sendable(p, slot, width), width) <= LINE_BUDGET
    ensures Encoded(MessageOf(p, slot), width) <= LINE_BUDGET ==> Sendable(p, slot, width) == MessageOf(p, slot)
  {
    var over := TooLong(MessageOf(p, slot), width);
    if over > 0 {
      hide Quoted, MembersLength, Decimal, RowMembers, TileMembers;
      var r := Row("Too long", "by " + Decimal(over) + " bytes", Some(Bad));
      var q := Built(p.title, [r], []);
      assert q.rows == [CutRow(r)] && q.tiles == [];
      HeadLength(q, slot, width);
      OneRowLength(CutRow(r), width);
    }
  }

  // --- what the board reads off a line ---

  function Lookup(line: Line, key: string): Option<Value> {
    if line == [] then None
    else if line[0].0 == key then Some(line[0].1)
    else Lookup(line[1..], key)
  }

  function TextAt(line: Line, key: string): string {
    match Lookup(line, key) case Some(Text(s)) => s case _ => ""
  }

  function DigitAt(line: Line, key: string): nat {
    match Lookup(line, key) case Some(Digit(d)) => d case _ => 0
  }

  const DIGITS := "0123456789"

  /** The board's flat keys: a letter and the number of the row or tile. */
  function Key(letter: char, i: nat): string
    requires i < 10
  {
    [letter, DIGITS[i]]
  }

  function ToneOf(name: string): Option<Tone> {
    if name == "dim" then Some(Dim)
    else if name == "ok" then Some(Fine)
    else if name == "warn" then Some(Warn)
    else if name == "bad" then Some(Bad)
    else None
  }

  /** The page a line describes. */
  function ReadPage(line: Line): Page {
    var n, tn := DigitAt(line, "n"), DigitAt(line, "tn");
    Page(TextAt(line, "title"),
         seq(n, i requires 0 <= i < n => if i < 10 then ReadRow(line, i) else Row("", "", None)),
         seq(tn, i requires 0 <= i < tn => if i < 10 then TextAt(line, Key('b', i)) else ""))
  }

  function ReadRow(line: Line, i: nat): Row
    requires i < 10
  {
    Row(TextAt(line, Key('l', i)), TextAt(line, Key('v', i)), ToneOf(TextAt(line, Key('c', i))))
  }

  lemma {:induction false} LookupJoin(a: Line, b: Line, key: string)
    ensures Lookup(a + b, key) == if Lookup(a, key).Some? then Lookup(a, key) else Lookup(b, key)
  {
    if a == [] {
      assert a + b == b;
    } else {
      assert (a + b)[1..] == a[1..] + b;
      LookupJoin(a[1..], b, key);
    }
  }

  lemma NthIsKey(letter: char, i: nat)
    requires i < 10
    ensures [letter] + Nth(i) == Key(letter, i)
    ensures forall other: char, j: nat :: j < 10 ==> (Key(letter, i) == Key(other, j) <==> letter == other && i == j)
  {
    forall other: char, j: nat | j < 10
      ensures Key(letter, i) == Key(other, j) <==> letter == other && i == j
    {
      assert Key(letter, i)[0] == letter && Key(letter, i)[1] == DIGITS[i];
      assert Key(other, j)[0] == other && Key(other, j)[1] == DIGITS[j];
    }
  }

  /** One row's members, looked up by any two-character key. */
  lemma RowLookup(r: Row, n: nat, letter: char, i: nat)
    requires n < 10 && i < 10
    ensures var one := [("l" + Nth(n), Text(r.key)), ("v" + Nth(n), Text(r.value))] +
              match r.tone case Some(t) => [("c" + Nth(n), Text(ToneName(t)))] case None => [];
      Lookup(one, Key(letter, i)) ==
        if i != n then None
        else if letter == 'l' then Some(Text(r.key))
        else if letter == 'v' then Some(Text(r.value))
        else if letter == 'c' && r.tone.Some? then Some(Text(ToneName(r.tone.value)))
        else None
  {
    hide Nth, Key, ToneName;
    NthIsKey('l', n);
    NthIsKey('v', n);
    NthIsKey('c', n);
    var a, b := ("l" + Nth(n), Text(r.key)), ("v" + Nth(n), Text(r.value));
    assert [a, b] == [a] + [b];
    LookupJoin([a], [b], Key(letter, i));
    LookupOne(a, Key(letter, i));
    LookupOne(b, Key(letter, i));
    if r.tone.Some? {
      var c := ("c" + Nth(n), Text(ToneName(r.tone.value)));
      LookupOne(c, Key(letter, i));
      LookupJoin([a, b], [c], Key(letter, i));
    } else {
      assert [a, b] + [] == [a, b];
    }
  }

  lemma {:induction false} RowsLookup(rows: seq<Row>, letter: char, i: nat)
    requires |rows| <= 10 && i < 10
    ensures Lookup(RowMembers(rows), Key(letter, i)) ==
      if i >= |rows| then None
      else if letter == 'l' then Some(Text(rows[i].key))
      else if letter == 'v' then Some(Text(rows[i].value))
      else if letter == 'c' && rows[i].tone.Some? then Some(Text(ToneName(rows[i].tone.value)))
      else None
  {
    hide Nth, Key, ToneName;
    if rows != [] {
      var n := |rows| - 1;
      RowsLookup(rows[..n], letter, i);
      RowLookup(rows[n], n, letter, i);
      var one := [("l" + Nth(n), Text(rows[n].key)), ("v" + Nth(n), Text(rows[n].value))] +
        match rows[n].tone case Some(t) => [("c" + Nth(n), Text(ToneName(t)))] case None => [];
      assert RowMembers(rows) == RowMembers(rows[..n]) + one;
      LookupJoin(RowMembers(rows[..n]), one, Key(letter, i));
    }
  }

  lemma {:induction false} TilesLookup(tiles: seq<string>, letter: char, i: nat)
    requires |tiles| <= 10 && i < 10
    ensures Lookup(TileMembers(tiles), Key(letter, i)) == if letter == 'b' && i < |tiles| then Some(Text(tiles[i])) else None
  {
    hide Nth, Key;
    if tiles != [] {
      var n := |tiles| - 1;
      TilesLookup(tiles[..n], letter, i);
      NthIsKey('b', n);
      var one := [("b" + Nth(n), Text(tiles[n]))];
      assert one[1..] == [];
      LookupJoin(TileMembers(tiles[..n]), one, Key(letter, i));
    }
  }

  lemma HeadLookup(p: Page, slot: nat, key: string)
    ensures Lookup(MessageOf(p, slot), key) ==
      if key == "t" then Some(Text("panel")) else if key == "v" then Some(Digit(2)) else if key == "p" then Some(Digit(slot))
      else if key == "title" then Some(Text(p.title)) else if key == "n" then Some(Digit(|p.rows|))
      else if key == "tn" then Some(Digit(|p.tiles|))
      else if Lookup(RowMembers(p.rows), key).Some? then Lookup(RowMembers(p.rows), key)
      else Lookup(TileMembers(p.tiles), key)
  {
    hide RowMembers, TileMembers;
    var a, b, c := ("t", Text("panel")), ("v", Digit(2)), ("p", Digit(slot));
    var d, e, f := ("title", Text(p.title)), ("n", Digit(|p.rows|)), ("tn", Digit(|p.tiles|));
    var head := [a, b, c, d, e, f];
    LookupJoin(head, RowMembers(p.rows), key);
    LookupJoin(head + RowMembers(p.rows), TileMembers(p.tiles), key);
    assert head[1..] == [b, c, d, e, f] && [b, c, d, e, f][1..] == [c, d, e, f] && [c, d, e, f][1..] == [d, e, f];
    assert [d, e, f][1..] == [e, f] && [e, f][1..] == [f] && [f][1..] == [];
    SixLookup(a, b, c, d, e, f, key);
  }

  lemma SixLookup(a: (string, Value), b: (string, Value), c: (string, Value),
                  d: (string, Value), e: (string, Value), f: (string, Value), key: string)
    ensures Lookup([a, b, c, d, e, f], key) ==
      if key == a.0 then Some(a.1) else if key == b.0 then Some(b.1) else if key == c.0 then Some(c.1)
      else if key == d.0 then Some(d.1) else if key == e.0 then Some(e.1) else if key == f.0 then Some(f.1) else None
  {
    assert [a, b, c, d, e, f] == [a] + ([b] + ([c] + ([d] + ([e] + [f]))));
    LookupJoin([a], [b] + ([c] + ([d] + ([e] + [f]))), key);
    LookupJoin([b], [c] + ([d] + ([e] + [f])), key);
    LookupJoin([c], [d] + ([e] + [f]), key);
    LookupJoin([d], [e] + [f], key);
    LookupJoin([e], [f], key);
    LookupOne(a, key);
    LookupOne(b, key);
    LookupOne(c, key);
    LookupOne(d, key);
    LookupOne(e, key);
    LookupOne(f, key);
  }

  lemma LookupOne(a: (string, Value), key: string)
    ensures Lookup([a], key) == if a.0 == key then Some(a.1) else None
  {
    assert [a][1..] == [];
  }

  lemma KeyIsNoHead(letter: char, i: nat)
    requires i < 10
    ensures Key(letter, i) !in ["t", "v", "p", "title", "n", "tn"]
  {
    assert |Key(letter, i)| == 2 && Key(letter, i)[1] == DIGITS[i] != 'n';
  }

  /** The board reads off a page's line the very page, and the slot it is for: every
      label beside its value and its tone, and the tiles in order. */
  lemma PageReadsBack(p: Page, slot: nat)
    requires |p.rows| <= 10 && |p.tiles| <= 10
    ensures ReadPage(MessageOf(p, slot)) == p
    ensures DigitAt(MessageOf(p, slot), "p") == slot && TextAt(MessageOf(p, slot), "t") == "panel"
  {
    hide MessageOf, Key;
    var line := MessageOf(p, slot);
    HeadLookup(p, slot, "t");
    HeadLookup(p, slot, "p");
    HeadLookup(p, slot, "title");
    HeadLookup(p, slot, "n");
    HeadLookup(p, slot, "tn");
    forall i | 0 <= i < |p.rows|
      ensures ReadRow(line, i) == p.rows[i]
    {
      RowReadsBack(p, slot, i);
    }
    forall i | 0 <= i < |p.tiles|
      ensures TextAt(line, Key('b', i)) == p.tiles[i]
    {
      KeyIsNoHead('b', i);
      HeadLookup(p, slot, Key('b', i));
      RowsLookup(p.rows, 'b', i);
      TilesLookup(p.tiles, 'b', i);
    }
    assert ReadPage(line).rows == p.rows && ReadPage(line).tiles == p.tiles;
  }

  lemma RowReadsBack(p: Page, slot: nat, i: nat)
    requires |p.rows| <= 10 && |p.tiles| <= 10 && i < |p.rows|
    ensures ReadRow(MessageOf(p, slot), i) == p.rows[i]
  {
    hide MessageOf, Key;
    forall letter | letter in ['l', 'v', 'c']
      ensures Lookup(MessageOf(p, slot), Key(letter, i)) == Lookup(RowMembers(p.rows), Key(letter, i))
    {
      KeyIsNoHead(letter, i);
      HeadLookup(p, slot, Key(letter, i));
      TilesLookup(p.tiles, letter, i);
    }
    assert 'l' in ['l', 'v', 'c'] && 'v' in ['l', 'v', 'c'] && 'c' in ['l', 'v', 'c'];
    RowsLookup(p.rows, 'l', i);
    RowsLookup(p.rows, 'v', i);
    RowsLookup(p.rows, 'c', i);
  }

  /** What is kept of what was asked for: the first rows and tiles there is room for, in
      order, every text cut to what fits. */
  lemma BuiltKeeps(title: string, rows: seq<Row>, tiles: seq<string>)
    ensures var p := Built(title, rows, tiles);
      && p.title == title[..if |title| < 20 then |title| else 20]
      && |p.rows| == AtMost(|rows|, if |tiles| > 4 then 2 else 5) && |p.tiles| == AtMost(|tiles|, 6)
      && (forall i :: 0 <= i < |p.rows| ==>
           && p.rows[i].key == rows[i].key[..AtMost(|rows[i].key|, 14)]
           && p.rows[i].value == rows[i].value[..AtMost(|rows[i].value|, 18)]
           && p.rows[i].tone == rows[i].tone)
      && (forall i :: 0 <= i < |p.tiles| ==> p.tiles[i] == tiles[i][..AtMost(|tiles[i]|, 12)])
  {
    var p := Built(title, rows, tiles);
    CutIs();
    hide Cut;
    forall i | 0 <= i < |p.rows|
      ensures p.rows[i] == CutRow(rows[i])
    {
    }
  }

  function AtMost(n: nat, most: nat): nat {
    if n < most then n else most
  }

  lemma CutIs()
    ensures forall s, n: nat {:trigger Cut(s, n)} :: Cut(s, n) == s[..AtMost(|s|, n)]
  {
  }

  /** The number a row of digits stands for. */
  function Number(digits: string): int {
    if digits == "" then 0 else 10 * Number(digits[..|digits| - 1]) + (digits[|digits| - 1] as int - 48)
  }

  lemma {:induction false} DecimalReads(n: nat)
    ensures Number(Decimal(n)) == n && Decimal(n) != ""
    ensures forall i :: 0 <= i < |Decimal(n)| ==> '0' <= Decimal(n)[i] <= '9'
    ensures n > 0 ==> Decimal(n)[0] != '0'
  {
    var last := ('0' as int + n % 10) as char;
    if n < 10 {
      assert Decimal(n) == [last] && [last][..0] == "";
    } else {
      DecimalReads(n / 10);
      assert Decimal(n) == Decimal(n / 10) + [last];
      assert Decimal(n)[..|Decimal(n)| - 1] == Decimal(n / 10);
    }
  }

  lemma CutWhole(title: string, text: string)
    requires |title| <= 20 && |text| <= 14
    ensures Cut(title, 20) == title && Cut(text, 14) == text
  {
  }

  /** A page whose line fits is sent as it is, and another as its title and one row
      that says by how many bytes it does not. */
  lemma SendableSays(p: Page, slot: nat, width: char -> nat)
    requires |p.title| <= 20 && |p.rows| <= 5 && |p.tiles| <= 6
    ensures var length := Encoded(MessageOf(p, slot), width);
      ReadPage(Sendable(p, slot, width)) ==
        if length <= 480 then p
        else Page(p.title, [Row("Too long", Cut("by " + Decimal(length - 480) + " bytes", 18), Some(Bad))], [])
  {
    hide MessageOf, Encoded, Decimal, ReadPage, Cut;
    PageReadsBack(p, slot);
    var length := Encoded(MessageOf(p, slot), width);
    if length > 480 {
      var text := "by " + Decimal(length - 480) + " bytes";
      var r := Row("Too long", text, Some(Bad));
      var q := Built(p.title, [r], []);
      CutWhole(p.title, "Too long");
      assert q.rows == [CutRow(r)];
      assert q.rows == [Row("Too long", Cut(text, 18), Some(Bad))] && q.title == p.title && q.tiles == [];
      PageReadsBack(q, slot);
    }
  }

  // --- the slots ---

  /** What building a page gives: the page, nothing this time, or a failure by name. */
  datatype Build = Shows(title: string, rows: seq<Row>, tiles: seq<string>) | Leaves | Fails(name: string)

  function PageOf(b: Build, slot: nat): Option<Page> {
    match b
    case Shows(title, rows, tiles) => Some(Built(title, rows, tiles))
    case Leaves => None
    case Fails(name) => Some(Built("Panel " + Nth(slot), [Row("Error", name, Some(Bad))], []))
  }

  /** The message a slot should be showing, or None to leave it. */
  function Current(b: Build, slot: nat, width: char -> nat): Option<Line> {
    match PageOf(b, slot)
    case None => None
    case Some(p) => Some(Sendable(p, slot, width))
  }

  datatype Sent = Sent(slot: nat, line: Line)

  /** What is remembered after the first `n` slots, and what was sent for them. */
  function Round(last: map<nat, Line>, builds: seq<Build>, width: char -> nat, n: nat): (map<nat, Line>, seq<Sent>)
    requires n <= |builds|
  {
    if n == 0 then (last, [])
    else
      var (known, out) := Round(last, builds, width, n - 1);
      match Current(builds[n - 1], n - 1, width)
      case None => (known, out)
      case Some(line) =>
        if n - 1 in known && known[n - 1] == line then (known, out)
        else (known[n - 1 := line], out + [Sent(n - 1, line)])
  }

  /** The glass after some messages. */
  function Glass(before: map<nat, Line>, out: seq<Sent>): map<nat, Line> {
    if out == [] then before
    else Glass(before, out[..|out| - 1])[out[|out| - 1].slot := out[|out| - 1].line]
  }

  function On(m: map<nat, Line>, slot: nat): Option<Line> {
    if slot in m then Some(m[slot]) else None
  }

  /** What is remembered is what the glass shows. */
  lemma {:induction false} RoundGlass(last: map<nat, Line>, builds: seq<Build>, width: char -> nat, n: nat)
    requires n <= |builds|
    ensures var (known, out) := Round(last, builds, width, n); Glass(last, out) == known
    decreases n
  {
    hide Current;
    if n > 0 {
      RoundGlass(last, builds, width, n - 1);
      var (known, out) := Round(last, builds, width, n - 1);
      var c := Current(builds[n - 1], n - 1, width);
      if c.Some? {
        assert (out + [Sent(n - 1, c.value)])[..|out|] == out;
      }
    }
  }

  /** After a round every slot shows its current page, and one left alone keeps what
      it had. */
  lemma {:induction false} RoundShows(last: map<nat, Line>, builds: seq<Build>, width: char -> nat, n: nat, slot: nat)
    requires n <= |builds|
    ensures On(Round(last, builds, width, n).0, slot) ==
            if slot < n && Current(builds[slot], slot, width).Some? then Current(builds[slot], slot, width) else On(last, slot)
    decreases n
  {
    hide Current;
    if n > 0 {
      RoundShows(last, builds, width, n - 1, slot);
    }
  }

  /** Only lines within the budget are sent, and none for a slot that shows it already. */
  lemma {:induction false} RoundSends(last: map<nat, Line>, builds: seq<Build>, width: char -> nat, n: nat)
    requires n <= |builds| && Narrow(width)
    ensures var (known, out) := Round(last, builds, width, n);
      && (out == [] ==> known == last)
      && forall k :: 0 <= k < |out| ==>
           out[k].slot < n && Encoded(out[k].line, width) <= LINE_BUDGET && On(last, out[k].slot) != Some(out[k].line)
    decreases n
  {
    hide Current, Encoded;
    if n > 0 {
      RoundSends(last, builds, width, n - 1);
      RoundShows(last, builds, width, n - 1, n - 1);
      CurrentFits(builds[n - 1], n - 1, width);
    }
  }

  lemma CurrentFits(b: Build, slot: nat, width: char -> nat)
    requires Narrow(width)
    ensures Current(b, slot, width).Some? ==> Encoded(Current(b, slot, width).value, width) <= LINE_BUDGET
  {
    hide Encoded, Sendable, Built;
    match PageOf(b, slot) {
      case Some(p) => SendableFits(p, slot, width);
      case None =>
    }
  }

  /** A second round over unchanged pages sends nothing. */
  lemma {:induction false} UnchangedIsSilent(last: map<nat, Line>, builds: seq<Build>, width: char -> nat, n: nat)
    requires n <= |builds|
    requires forall i :: 0 <= i < |builds| && Current(builds[i], i, width).Some? ==>
      i in last && last[i] == Current(builds[i], i, width).value
    ensures Round(last, builds, width, n) == (last, [])
    decreases n
  {
    hide Current;
    if n > 0 {
      UnchangedIsSilent(last, builds, width, n - 1);
    }
  }

  datatype Event = Tick(builds: seq<Build>) | Forget

  datatype Link = Link(last: map<nat, Line>, glass: map<nat, Line>)

  /** Forgetting is for a board that started again, with an empty glass. */
  function Next(l: Link, e: Event, width: char -> nat): Link {
    match e
    case Forget => Link(map[], map[])
    case Tick(builds) =>
      var (known, out) := Round(l.last, builds, width, |builds|);
      Link(known, Glass(l.glass, out))
  }

  function Run(events: seq<Event>, width: char -> nat): Link {
    if events == [] then Link(map[], map[])
    else Next(Run(events[..|events| - 1], width), events[|events| - 1], width)
  }

  /** Over every run of ticks and restarts the memory is what the glass shows, so each
      slot's last message since its board started is its current page. */
  lemma {:induction false} GlassIsCurrent(events: seq<Event>, width: char -> nat)
    ensures var l := Run(events, width); l.last == l.glass
    ensures events != [] && events[|events| - 1].Tick? ==>
      var builds := events[|events| - 1].builds;
      forall i :: 0 <= i < |builds| && Current(builds[i], i, width).Some? ==>
        On(Run(events, width).glass, i) == Current(builds[i], i, width)
  {
    hide Current, Round, Glass, On;
    if events != [] {
      var before := events[..|events| - 1];
      GlassIsCurrent(before, width);
      match events[|events| - 1] {
        case Tick(builds) =>
          RoundGlass(Run(before, width).last, builds, width, |builds|);
          forall i | 0 <= i < |builds|
            ensures Current(builds[i], i, width).Some? ==> On(Run(events, width).glass, i) == Current(builds[i], i, width)
          {
            RoundShows(Run(before, width).last, builds, width, |builds|, i);
          }
        case Forget =>
      }
    }
  }

  /** What a tick leaves on the glass: the page that was built, or one that names its
      failure, or what was there before. */
  lemma SlotsShow(events: seq<Event>, builds: seq<Build>, width: char -> nat, slot: nat)
    requires slot < |builds| && slot < 4 && Narrow(width)
    ensures var was, now := On(Run(events, width).glass, slot), On(Run(events + [Tick(builds)], width).glass, slot);
      && (builds[slot].Shows? ==>
           now == Some(Sendable(Built(builds[slot].title, builds[slot].rows, builds[slot].tiles), slot, width)))
      && (builds[slot].Fails? ==>
           now.Some? &&
           ReadPage(now.value) == Page("Panel " + Decimal(slot), [Row("Error", Cut(builds[slot].name, 18), Some(Bad))], []))
      && (builds[slot].Leaves? ==> now == was)
  {
    hide Round, Glass, On, Sendable, ReadPage, Built, Cut;
    var after := events + [Tick(builds)];
    assert after[..|after| - 1] == events;
    GlassIsCurrent(events, width);
    GlassIsCurrent(after, width);
    RoundShows(Run(events, width).last, builds, width, |builds|, slot);
    if builds[slot].Fails? {
      FailureShows(builds[slot].name, slot, width);
    }
  }

  /** A failure's page always fits. */
  lemma FailureShows(name: string, slot: nat, width: char -> nat)
    requires slot < 4 && Narrow(width)
    ensures ReadPage(Sendable(Built("Panel " + Nth(slot), [Row("Error", name, Some(Bad))], []), slot, width)) ==
            Page("Panel " + Decimal(slot), [Row("Error", Cut(name, 18), Some(Bad))], [])
  {
    hide MembersLength, RowMembers, TileMembers, ReadPage, Cut, MessageOf, Sendable;
    var r := Row("Error", name, Some(Bad));
    var p := Built("Panel " + Nth(slot), [r], []);
    assert Decimal(slot) == Nth(slot);
    CutWhole("Panel " + Nth(slot), "Error");
    assert p.rows == [CutRow(r)];
    assert p == Page("Panel " + Decimal(slot), [Row("Error", Cut(name, 18), Some(Bad))], []);
    HeadLength(p, slot, width);
    OneRowLength(p.rows[0], width);
    SendableSays(p, slot, width);
  }

  // --- the set itself ---

  /** The pages a daemon shows and what it last sent for each. */
  class PanelSet {
    var sources: nat
    var last: map<nat, Line>

    constructor ()
      ensures sources == 0 && last == map[]
    {
      sources, last := 0, map[];
    }

    /** The slot handed out, or None when the board is full. */
    method Add() returns (slot: Option<nat>)
      modifies this`sources
      ensures old(sources) < 4 ==> slot == Some(old(sources)) && sources == old(sources) + 1
      ensures old(sources) >= 4 ==> slot == None && sources == old(sources)
    {
      if sources >= PANEL_MAX { return None; }
      sources := sources + 1;
      return Some(sources - 1);
    }

    method Messages(builds: seq<Build>, width: char -> nat) returns (out: seq<Sent>)
      requires |builds| == sources
      modifies this`last
      ensures (last, out) == Round(old(last), builds, width, |builds|)
    {
      hide Sendable, Built;
      out := [];
      var slot := 0;
      while slot < |builds|
        invariant 0 <= slot <= |builds|
        invariant (last, out) == Round(old(last), builds, width, slot)
      {
        var page := PageOf(builds[slot], slot);
        if page.Some? {
          var line := Sendable(page.value, slot, width);
          if !(slot in last && last[slot] == line) {
            last := last[slot := line];
            out := out + [Sent(slot, line)];
          }
        }
        slot := slot + 1;
      }
    }

    method Forgets()
      modifies this`last
      ensures last == map[]
    {
      last := map[];
    }
  }
}
