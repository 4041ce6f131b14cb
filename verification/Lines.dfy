/** Cutting a stream into lines as it arrives: the serial reader, the console tap,
    the console echo and the journal's line assembly, and how far what they say
    depends on where the chunks were cut. */
module Lines {
  import opened Bytes
  import opened Wrappers

  const NEWLINE: byte := 10

  /** The first place `x` stands in `s`, or the end. */
  function Find<T(==)>(s: seq<T>, x: T): (i: nat)
    ensures i <= |s|
  {
    if s == [] || s[0] == x then 0 else 1 + Find(s[1..], x)
  }

  lemma {:induction false} FindIsFirst<T>(s: seq<T>, x: T)
    ensures x !in s[..Find(s, x)]
    ensures Find(s, x) < |s| ==> s[Find(s, x)] == x
  {
    if s != [] && s[0] != x {
      FindIsFirst(s[1..], x);
      assert s[..Find(s, x)] == [s[0]] + s[1..][..Find(s[1..], x)];
    }
  }

  lemma {:induction false} FindIs<T>(s: seq<T>, x: T, i: nat)
    requires i <= |s| && x !in s[..i] && (i < |s| ==> s[i] == x)
    ensures Find(s, x) == i
  {
    if i > 0 {
      assert s[..i] == [s[0]] + s[1..][..i - 1];
      FindIs(s[1..], x, i - 1);
    }
  }

  lemma FindAfter<T>(held: seq<T>, b: seq<T>, x: T)
    requires x !in held
    ensures Find(held + b, x) == |held| + Find(b, x)
  {
    hide Find;
    var i := Find(b, x);
    FindIsFirst(b, x);
    assert (held + b)[..|held| + i] == held + b[..i];
    FindIs(held + b, x, |held| + i);
  }

  /** The lines that `nl` ends. */
  function Whole<T(==)>(s: seq<T>, nl: T): seq<seq<T>>
    decreases |s|
  {
    var i := Find(s, nl);
    if i == |s| then [] else [s[..i]] + Whole(s[i + 1..], nl)
  }

  /** What follows the last `nl`. */
  function Tail<T(==)>(s: seq<T>, nl: T): seq<T>
    decreases |s|
  {
    var i := Find(s, nl);
    if i == |s| then s else Tail(s[i + 1..], nl)
  }

  /** `Whole` and `Tail` written back with their ends are the text again. */
  function Joined<T>(lines: seq<seq<T>>, nl: T): seq<T> {
    if lines == [] then [] else lines[0] + [nl] + Joined(lines[1..], nl)
  }

  lemma {:induction false} TailIsClean<T>(s: seq<T>, nl: T)
    ensures nl !in Tail(s, nl)
    decreases |s|
  {
    hide Find;
    FindIn(s, [], nl);
    var i := Find(s, nl);
    if i < |s| {
      TailIsClean(s[i + 1..], nl);
    }
  }

  lemma {:induction false} JoinedIsText<T>(s: seq<T>, nl: T)
    ensures Joined(Whole(s, nl), nl) + Tail(s, nl) == s
    decreases |s|
  {
    hide Find;
    var i := Find(s, nl);
    if i < |s| {
      var rest := s[i + 1..];
      FindIsFirst(s, nl);
      JoinedIsText(rest, nl);
      var whole := Whole(s, nl);
      assert whole == [s[..i]] + Whole(rest, nl);
      assert whole[0] == s[..i] && whole[1..] == Whole(rest, nl);
      assert s == s[..i] + [nl] + rest;
    }
  }

  lemma FindIn<T>(a: seq<T>, b: seq<T>, x: T)
    ensures x in a <==> Find(a, x) < |a|
    ensures x in a ==> Find(a + b, x) == Find(a, x)
  {
    hide Find;
    FindIsFirst(a, x);
    var i := Find(a, x);
    assert a == a[..i] + a[i..];
    if i < |a| {
      FindIs(a + b, x, i);
    } else {
      assert a[..i] == a;
    }
  }

  /** The lines do not depend on where the text is cut. */
  lemma {:induction false} SplitAnywhere<T>(a: seq<T>, b: seq<T>, nl: T)
    ensures Whole(a + b, nl) == Whole(a, nl) + Whole(Tail(a, nl) + b, nl)
    ensures Tail(a + b, nl) == Tail(Tail(a, nl) + b, nl)
    decreases |a|
  {
    hide Find;
    FindIn(a, b, nl);
    var i := Find(a, nl);
    if i < |a| {
      assert (a + b)[..i] == a[..i];
      assert (a + b)[i + 1..] == a[i + 1..] + b;
      SplitAnywhere(a[i + 1..], b, nl);
    }
  }

  /** Text put in front of an unfinished line only lengthens its first line. */
  lemma LeadingText<T>(held: seq<T>, b: seq<T>, nl: T)
    requires nl !in held
    ensures nl !in b ==> Whole(held + b, nl) == [] && Tail(held + b, nl) == held + b
    ensures nl in b ==> |Whole(b, nl)| > 0 && Whole(b, nl)[0] == b[..Find(b, nl)]
    ensures nl in b ==> Whole(held + b, nl) == [held + b[..Find(b, nl)]] + Whole(b, nl)[1..]
    ensures nl in b ==> Tail(held + b, nl) == Tail(b, nl)
  {
    hide Find, Whole, Tail;
    FindAfter(held, b, nl);
    FirstLine(held + b, nl);
    FirstLine(b, nl);
    if nl in b {
      var i := Find(b, nl);
      assert (held + b)[..|held| + i] == held + b[..i];
      assert (held + b)[|held| + i + 1..] == b[i + 1..];
      assert Whole(b, nl)[1..] == Whole(b[i + 1..], nl);
    }
  }

  lemma FirstLine<T>(s: seq<T>, nl: T)
    ensures nl in s <==> Find(s, nl) < |s|
    ensures nl in s ==> Whole(s, nl) == [s[..Find(s, nl)]] + Whole(s[Find(s, nl) + 1..], nl)
    ensures nl in s ==> Tail(s, nl) == Tail(s[Find(s, nl) + 1..], nl)
    ensures nl !in s ==> Whole(s, nl) == [] && Tail(s, nl) == s
  {
    hide *;
    FindIn(s, [], nl);
    if nl in s {
      WholeUnfolds(s, nl, Find(s, nl));
      TailUnfolds(s, nl, Find(s, nl));
    } else {
      MissingUnfolds(s, nl);
    }
  }

  lemma WholeUnfolds<T>(s: seq<T>, nl: T, i: nat)
    requires Find(s, nl) == i < |s|
    ensures Whole(s, nl) == [s[..i]] + Whole(s[i + 1..], nl)
  {
    hide Find;
  }

  lemma TailUnfolds<T>(s: seq<T>, nl: T, i: nat)
    requires Find(s, nl) == i < |s|
    ensures Tail(s, nl) == Tail(s[i + 1..], nl)
  {
    hide Find;
  }

  lemma MissingUnfolds<T>(s: seq<T>, nl: T)
    requires Find(s, nl) == |s|
    ensures Whole(s, nl) == [] && Tail(s, nl) == s
  {
    hide Find;
  }

  // --- the protocol reader ---

  /** The messages among the lines, in order. */
  function Messages<M>(lines: seq<bytes>, decode: bytes -> Option<M>): seq<M> {
    if lines == [] then []
    else
      var n := |lines| - 1;
      Messages(lines[..n], decode) + match decode(lines[n]) case Some(m) => [m] case None => []
  }

  lemma {:induction false} MessagesAppend<M>(a: seq<bytes>, b: seq<bytes>, decode: bytes -> Option<M>)
    ensures Messages(a + b, decode) == Messages(a, decode) + Messages(b, decode)
    decreases |b|
  {
    if b == [] {
      assert a + b == a;
    } else {
      var n := |b| - 1;
      MessagesAppend(a, b[..n], decode);
      assert (a + b)[..|a + b| - 1] == a + b[..n];
    }
  }

  lemma MessagesOne<M>(a: seq<bytes>, line: bytes, decode: bytes -> Option<M>)
    ensures Messages(a + [line], decode) ==
            Messages(a, decode) + match decode(line) case Some(m) => [m] case None => []
  {
    assert (a + [line])[..|a|] == a;
  }

  /** `decode` is None for noise and for anything that fails to parse. */
  class LineReader<M> {
    var buf: bytes

    constructor ()
      ensures buf == []
    {
      buf := [];
    }

    method Feed(chunk: bytes, decode: bytes -> Option<M>) returns (out: seq<M>)
      modifies this
      ensures buf == Tail(old(buf) + chunk, NEWLINE)
      ensures out == Messages(Whole(old(buf) + chunk, NEWLINE), decode)
    {
      hide Find, Whole, Tail, Messages;
      buf := buf + chunk;
      ghost var all, seen: seq<bytes> := buf, [];
      out := [];
      MessagesNone(decode);
      while NEWLINE in buf
        invariant seen + Whole(buf, NEWLINE) == Whole(all, NEWLINE)
        invariant Tail(buf, NEWLINE) == Tail(all, NEWLINE)
        invariant out == Messages(seen, decode)
        decreases |buf|
      {
        FirstLine(buf, NEWLINE);
        var i := Find(buf, NEWLINE);
        var raw := buf[..i];
        buf := buf[i + 1..];
        match decode(raw) {
          case Some(m) => out := out + [m];
          case None =>
        }
        MessagesOne(seen, raw, decode);
        seen := seen + [raw];
      }
      FirstLine(buf, NEWLINE);
      assert seen + [] == seen;
    }
  }

  lemma MessagesNone<M>(decode: bytes -> Option<M>)
    ensures Messages([], decode) == []
  {
  }

  /** What a reader gives, and is left with, after each chunk in turn. */
  function FedAll<M>(buf: bytes, chunks: seq<bytes>, decode: bytes -> Option<M>): (seq<M>, bytes)
    decreases |chunks|
  {
    if chunks == [] then ([], buf)
    else
      var text := buf + chunks[0];
      var (rest, left) := FedAll(Tail(text, NEWLINE), chunks[1..], decode);
      (Messages(Whole(text, NEWLINE), decode) + rest, left)
  }

  function Concat<T>(chunks: seq<seq<T>>): seq<T> {
    if chunks == [] then [] else chunks[0] + Concat(chunks[1..])
  }

  /** Any cutting of the stream gives the messages and the buffer of one feed. */
  lemma {:induction false} ChunksDoNotMatter<M>(buf: bytes, chunks: seq<bytes>, decode: bytes -> Option<M>)
    requires 10 !in buf
    ensures FedAll(buf, chunks, decode) ==
            (Messages(Whole(buf + Concat(chunks), 10), decode), Tail(buf + Concat(chunks), 10))
    decreases |chunks|
  {
    hide Messages, Find, Whole, Tail;
    if chunks == [] {
      assert buf + [] == buf;
      FirstLine(buf, NEWLINE);
      MessagesNone(decode);
    } else {
      var text := buf + chunks[0];
      var rest := Concat(chunks[1..]);
      TailIsClean(text, NEWLINE);
      ChunksDoNotMatter(Tail(text, NEWLINE), chunks[1..], decode);
      SplitAnywhere(text, rest, NEWLINE);
      assert buf + Concat(chunks) == text + rest;
      MessagesAppend(Whole(text, NEWLINE), Whole(Tail(text, NEWLINE) + rest, NEWLINE), decode);
    }
  }

  // --- the console tap ---

  const CR: char := '\r'

  function StripCr(line: string): (r: string)
    ensures r <= line && (forall k :: |r| <= k < |line| ==> line[k] == CR)
    ensures r != [] ==> r[|r| - 1] != CR
  {
    if line != [] && line[|line| - 1] == CR then StripCr(line[..|line| - 1]) else line
  }

  /** One record per line, decoded and without its carriage returns. */
  function Records(lines: seq<bytes>, text: bytes -> string): (r: seq<string>)
    ensures |r| == |lines| && forall i :: 0 <= i < |r| ==> r[i] == StripCr(text(lines[i]))
  {
    if lines == [] then [] else Records(lines[..|lines| - 1], text) + [StripCr(text(lines[|lines| - 1]))]
  }

  lemma {:induction false} RecordsAppend(a: seq<bytes>, b: seq<bytes>, text: bytes -> string)
    ensures Records(a + b, text) == Records(a, text) + Records(b, text)
  {
    hide StripCr;
    assert forall i :: 0 <= i < |a + b| ==> Records(a + b, text)[i] == StripCr(text((a + b)[i]));
    assert forall i :: 0 <= i < |a| ==> Records(a, text)[i] == StripCr(text(a[i]));
    assert forall i :: 0 <= i < |b| ==> Records(b, text)[i] == StripCr(text(b[i]));
    assert Records(a + b, text) == Records(a, text) + Records(b, text);
  }

  /** Two reads record what one would, on all bytes. */
  lemma TapCut(pending: bytes, a: bytes, b: bytes, text: bytes -> string)
    ensures var held := Tail(pending + a, NEWLINE);
      && Records(Whole(pending + a, NEWLINE), text) + Records(Whole(held + b, NEWLINE), text) ==
         Records(Whole(pending + (a + b), NEWLINE), text)
      && Tail(held + b, NEWLINE) == Tail(pending + (a + b), NEWLINE)
  {
    hide Whole, Tail, Records;
    assert pending + (a + b) == (pending + a) + b;
    SplitAnywhere(pending + a, b, NEWLINE);
    RecordsAppend(Whole(pending + a, NEWLINE), Whole(Tail(pending + a, NEWLINE) + b, NEWLINE), text);
  }

  /** The transcript of what the board prints. */
  class Tap {
    var pending: bytes
    var written: seq<string>

    constructor ()
      ensures pending == [] && written == []
    {
      pending, written := [], [];
    }

    method Console(data: bytes, text: bytes -> string)
      modifies this
      ensures pending == Tail(old(pending) + data, NEWLINE)
      ensures written == old(written) + Records(Whole(old(pending) + data, NEWLINE), text)
    {
      hide Find, Whole, Tail, StripCr;
      pending := pending + data;
      var whole := Whole(pending, NEWLINE);
      pending := Tail(pending, NEWLINE);
      ghost var before := written;
      var i := 0;
      assert before + Records([], text) == before;
      while i < |whole|
        invariant 0 <= i <= |whole|
        invariant pending == Tail(old(pending) + data, NEWLINE)
        invariant written == before + Records(whole[..i], text)
      {
        written := written + [StripCr(text(whole[i]))];
        assert whole[..i + 1][..i] == whole[..i];
        assert before + Records(whole[..i + 1], text) == before + Records(whole[..i], text) + [StripCr(text(whole[i]))];
        i := i + 1;
      }
      assert whole[..i] == whole;
    }
  }

  // --- the console echo ---

  const ECHO_LIMIT: nat := 4096

  /** What stripping a text takes for white space. */
  predicate Space(c: char) {
    var n := c as int;
    || 9 <= n <= 13 || 28 <= n <= 32 || 0x2000 <= n <= 0x200A
    || n in {0x85, 0xA0, 0x1680, 0x2028, 0x2029, 0x202F, 0x205F, 0x3000}
  }

  function LStrip(s: string): (r: string)
    ensures r != [] ==> !Space(r[0])
  {
    if s != [] && Space(s[0]) then LStrip(s[1..]) else s
  }

  /** Blank lines and protocol JSON are not echoed. */
  predicate Echoed(line: string) {
    LStrip(line) != [] && LStrip(line)[0] != '{'
  }

  /** A line is echoed exactly when its first character that is not white space is no
      opening brace. */
  lemma {:induction false} EchoedIff(line: string)
    ensures Echoed(line) <==>
      exists i :: 0 <= i < |line| && !Space(line[i]) && line[i] != '{' && forall j :: 0 <= j < i ==> Space(line[j])
    decreases |line|
  {
    hide Space;
    if line != [] && Space(line[0]) {
      EchoedIff(line[1..]);
      if Echoed(line) {
        var i :| 0 <= i < |line[1..]| && !Space(line[1..][i]) && line[1..][i] != '{' &&
          forall j :: 0 <= j < i ==> Space(line[1..][j]);
        assert line[i + 1] == line[1..][i];
        forall j | 0 <= j < i + 1
          ensures Space(line[j])
        {
          if j > 0 { assert line[j] == line[1..][j - 1]; }
        }
      }
      if i :| 0 <= i < |line| && !Space(line[i]) && line[i] != '{' && forall j :: 0 <= j < i ==> Space(line[j]) {
        assert line[1..][i - 1] == line[i];
        forall j | 0 <= j < i - 1
          ensures Space(line[1..][j])
        {
          assert line[1..][j] == line[j + 1];
        }
      }
    }
  }

  function Echoes(lines: seq<bytes>, text: bytes -> string): (r: seq<string>)
    ensures forall i :: 0 <= i < |r| ==> Echoed(r[i])
  {
    if lines == [] then []
    else
      var n := |lines| - 1;
      var line := StripCr(text(lines[n]));
      Echoes(lines[..n], text) + if Echoed(line) then [line] else []
  }

  function LastOf<T>(s: seq<T>, n: nat): seq<T> {
    if |s| > n then s[|s| - n..] else s
  }

  /** What the board prints, for the log. */
  class ConsoleEcho {
    var buf: bytes
    const limit: nat

    constructor (limit: nat := ECHO_LIMIT)
      ensures buf == [] && this.limit == limit
    {
      buf, this.limit := [], limit;
    }

    method Feed(data: bytes, text: bytes -> string) returns (lines: seq<string>)
      modifies this
      ensures buf == LastOf(Tail(old(buf) + data, NEWLINE), limit)
      ensures lines == Echoes(Whole(old(buf) + data, NEWLINE), text)
    {
      hide Find, Whole, Tail, Echoes, StripCr, Echoed;
      buf := buf + data;
      ghost var all, seen: seq<bytes> := buf, [];
      lines := [];
      EchoesNone(text);
      while true
        invariant seen + Whole(buf, NEWLINE) == Whole(all, NEWLINE)
        invariant Tail(buf, NEWLINE) == Tail(all, NEWLINE)
        invariant lines == Echoes(seen, text)
        decreases |buf|
      {
        FirstLine(buf, NEWLINE);
        var nl := Find(buf, NEWLINE);
        if nl == |buf| { break; }
        var raw := buf[..nl];
        buf := buf[nl + 1..];
        var line := StripCr(text(raw));
        EchoesOne(seen, raw, text);
        seen := seen + [raw];
        if Echoed(line) {
          lines := lines + [line];
        }
      }
      FirstLine(buf, NEWLINE);
      assert seen + [] == seen;
      if |buf| > limit {
        buf := buf[|buf| - limit..];
      }
    }
  }

  lemma EchoesNone(text: bytes -> string)
    ensures Echoes([], text) == []
  {
  }

  lemma EchoesOne(seen: seq<bytes>, raw: bytes, text: bytes -> string)
    ensures var line := StripCr(text(raw));
      Echoes(seen + [raw], text) == Echoes(seen, text) + if Echoed(line) then [line] else []
  {
    assert (seen + [raw])[..|seen|] == seen;
  }

  lemma LastOfLast<T>(s: seq<T>, b: seq<T>, n: nat)
    ensures LastOf(LastOf(s, n) + b, n) == LastOf(s + b, n)
  {
    if |s| > n {
      LastOfDrop(s + b, |s| - n, n);
      assert s[|s| - n..] + b == (s + b)[|s| - n..];
    }
  }

  lemma LastOfDrop<T>(s: seq<T>, k: nat, n: nat)
    requires k + n <= |s|
    ensures LastOf(s[k..], n) == LastOf(s, n)
  {
  }

  /** Two feeds against one, for an echo holding `buf`: the buffer left is always
      the same, and so are the lines cut, unless a line already over the limit
      was still unfinished at the cut and is finished after it. */
  lemma EchoCut(buf: bytes, a: bytes, b: bytes, limit: nat)
    ensures var held := Tail(buf + a, NEWLINE);
      var first := LastOf(held, limit);
      && LastOf(Tail(first + b, NEWLINE), limit) == LastOf(Tail(buf + (a + b), NEWLINE), limit)
      && (Whole(buf + a, NEWLINE) + Whole(first + b, NEWLINE) == Whole(buf + (a + b), NEWLINE)
          <==> |held| <= limit || NEWLINE !in b)
  {
    hide Find, Whole, Tail;
    var held := Tail(buf + a, NEWLINE);
    var first := LastOf(held, limit);
    TailIsClean(buf + a, NEWLINE);
    SplitAnywhere(buf + a, b, NEWLINE);
    assert buf + (a + b) == (buf + a) + b;
    LeadingText(held, b, NEWLINE);
    LeadingText(first, b, NEWLINE);
    var w := Whole(buf + a, NEWLINE);
    if NEWLINE in b {
      assert (w + Whole(first + b, NEWLINE))[|w|] == first + b[..Find(b, NEWLINE)];
      assert (w + Whole(held + b, NEWLINE))[|w|] == held + b[..Find(b, NEWLINE)];
    } else {
      LastOfLast(held, b, limit);
    }
  }

  lemma {:induction false} EchoesAppend(a: seq<bytes>, b: seq<bytes>, text: bytes -> string)
    ensures Echoes(a + b, text) == Echoes(a, text) + Echoes(b, text)
    decreases |b|
  {
    hide StripCr, Echoed;
    if b == [] {
      assert a + b == a;
    } else {
      EchoesAppend(a, b[..|b| - 1], text);
      assert (a + b)[..|a + b| - 1] == a + b[..|b| - 1];
    }
  }

  /** While no unfinished line is over the limit, two feeds echo what one does. */
  lemma EchoIsChunkless(buf: bytes, a: bytes, b: bytes, limit: nat, text: bytes -> string)
    requires |Tail(buf + a, NEWLINE)| <= limit
    ensures var first := LastOf(Tail(buf + a, NEWLINE), limit);
      Echoes(Whole(buf + a, NEWLINE), text) + Echoes(Whole(first + b, NEWLINE), text) ==
      Echoes(Whole(buf + (a + b), NEWLINE), text)
  {
    hide Whole, Tail, Echoes;
    EchoCut(buf, a, b, limit);
    EchoesAppend(Whole(buf + a, NEWLINE), Whole(Tail(buf + a, NEWLINE) + b, NEWLINE), text);
  }

  // --- the journal's lines ---

  const PARTIAL_CAP: nat := 8192

  function Stripped(lines: seq<string>): seq<string> {
    seq(|lines|, i requires 0 <= i < |lines| => StripCr(lines[i]))
  }

  /** The lines one write offers, and the text it leaves unfinished. */
  function Assembled(partial: string, s: string): (r: (seq<string>, string))
    ensures |r.1| <= PARTIAL_CAP || s == ""
  {
    if s == "" then ([], partial)
    else
      var tail := Tail(partial + s, '\n');
      var lines := Stripped(Whole(partial + s, '\n'));
      if |tail| > PARTIAL_CAP then (lines + [tail], "") else (lines, tail)
  }

  lemma StrippedNone()
    ensures Stripped([]) == []
  {
  }

  lemma StrippedOne(lines: seq<string>, line: string)
    ensures Stripped(lines + [line]) == Stripped(lines) + [StripCr(line)]
  {
  }

  lemma StrippedAppend(a: seq<string>, b: seq<string>)
    ensures Stripped(a + b) == Stripped(a) + Stripped(b)
  {
  }

  /** Two writes offer what one does exactly when the first left no text over the
      cap, or the second had nothing to add. */
  lemma WriteCut(partial: string, a: string, b: string)
    requires '\n' !in partial && |partial| <= PARTIAL_CAP
    ensures var (x, p) := Assembled(partial, a);
      var (y, q) := Assembled(p, b);
      (x + y, q) == Assembled(partial, a + b) <==> |Tail(partial + a, '\n')| <= 8192 || b == ""
  {
    hide Find, Whole, Tail, StripCr, Stripped;
    var (x, p) := Assembled(partial, a);
    if b == "" {
      assert a + b == a;
      assert x + [] == x;
    } else if a == "" {
      assert a + b == b && partial + a == partial;
      FirstLine(partial, '\n');
      var (y, _) := Assembled(partial, b);
      assert [] + y == y;
    } else if |Tail(partial + a, '\n')| > PARTIAL_CAP {
      WriteCutOver(partial, a, b);
    } else {
      WriteCutUnder(partial, a, b);
    }
  }

  lemma WriteCutUnder(partial: string, a: string, b: string)
    requires |Tail(partial + a, '\n')| <= PARTIAL_CAP && a != "" && b != ""
    ensures var (x, p) := Assembled(partial, a);
      var (y, q) := Assembled(p, b);
      (x + y, q) == Assembled(partial, a + b)
  {
    hide Find, Whole, Tail, StripCr, Stripped;
    var held := Tail(partial + a, '\n');
    SplitAnywhere(partial + a, b, '\n');
    assert partial + (a + b) == (partial + a) + b;
    StrippedAppend(Whole(partial + a, '\n'), Whole(held + b, '\n'));
    var w, v := Stripped(Whole(partial + a, '\n')), Stripped(Whole(held + b, '\n'));
    var tail := Tail(held + b, '\n');
    assert w + (v + [tail]) == (w + v) + [tail];
  }

  lemma WriteCutOver(partial: string, a: string, b: string)
    requires |Tail(partial + a, '\n')| > PARTIAL_CAP && a != "" && b != ""
    ensures var (x, p) := Assembled(partial, a);
      var (y, q) := Assembled(p, b);
      x + y != Assembled(partial, a + b).0
  {
    hide Find, Whole, Tail, StripCr, Stripped;
    var held := Tail(partial + a, '\n');
    TailIsClean(partial + a, '\n');
    SplitAnywhere(partial + a, b, '\n');
    assert partial + (a + b) == (partial + a) + b;
    StrippedAppend(Whole(partial + a, '\n'), Whole(held + b, '\n'));
    var w := Stripped(Whole(partial + a, '\n'));
    CappedDiffers(w, held, b);
    assert w + Stripped(Whole(held + b, '\n')) + [] == w + Stripped(Whole(held + b, '\n'));
  }

  /** A line cut at the cap is offered in pieces: one more line, or a shorter one. */
  lemma CappedDiffers(w: seq<string>, held: string, b: string)
    requires '\n' !in held && |held| > PARTIAL_CAP && b != ""
    ensures var (y, q) := Assembled("", b);
      var tail := Tail(held + b, '\n');
      var one := w + Stripped(Whole(held + b, '\n')) + if |tail| > PARTIAL_CAP then [tail] else [];
      (w + [held]) + y != one
  {
    hide Find, Whole, Tail, StripCr;
    var (y, q) := Assembled("", b);
    assert "" + b == b;
    LeadingText(held, b, '\n');
    LeadingText("", b, '\n');
    if '\n' !in b {
      assert ((w + [held]) + y)[|w|] == held;
      assert (w + [] + [held + b])[|w|] == held + b;
    } else {
      var tail := Tail(b, '\n');
      var long := if |tail| > PARTIAL_CAP then [tail] else [];
      assert |y| == |Whole(b, '\n')| + |long|;
    }
  }

}
