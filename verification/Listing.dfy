/** Which files of a directory are read, and in what order: by the number in the name,
    whatever order the listing comes in. */
module Listing {
  import opened Wrappers

  /** What a name is ordered by: its number, or itself, behind every number. */
  datatype FileKey = Number(n: nat) | Name(name: string)

  predicate Digit(c: char) {
    '0' <= c <= '9'
  }

  predicate Digits(s: string) {
    forall i | 0 <= i < |s| :: Digit(s[i])
  }

  /** What stands before the first dot. */
  function Stem(name: string): string {
    if name == [] || name[0] == '.' then [] else [name[0]] + Stem(name[1..])
  }

  function Value(digits: string): nat
    requires Digits(digits)
  {
    if digits == [] then 0
    else Value(digits[..|digits| - 1]) * 10 + (digits[|digits| - 1] as int - '0' as int)
  }

  function KeyOf(name: string): FileKey {
    var stem := Stem(name);
    if stem != [] && Digits(stem) then Number(Value(stem)) else Name(name)
  }

  predicate Less(a: string, b: string) {
    b != [] && (a == [] || a[0] < b[0] || (a[0] == b[0] && Less(a[1..], b[1..])))
  }

  predicate Before(a: FileKey, b: FileKey) {
    match (a, b)
    case (Number(m), Number(n)) => m < n
    case (Number(_), Name(_)) => true
    case (Name(_), Number(_)) => false
    case (Name(s), Name(t)) => Less(s, t)
  }

  predicate EndsWith(name: string, suffix: string) {
    |suffix| <= |name| && name[|name| - |suffix|..] == suffix
  }

  function Matching(names: seq<string>, suffix: string): seq<string> {
    if names == [] then []
    else
      var n := |names| - 1;
      Matching(names[..n], suffix) + if EndsWith(names[n], suffix) then [names[n]] else []
  }

  /** Behind everything it does not belong before. */
  function Insert(sorted: seq<string>, name: string): seq<string> {
    if sorted == [] || !Before(KeyOf(name), KeyOf(sorted[|sorted| - 1])) then sorted + [name]
    else Insert(sorted[..|sorted| - 1], name) + [sorted[|sorted| - 1]]
  }

  function Sorted(names: seq<string>): seq<string> {
    if names == [] then [] else Insert(Sorted(names[..|names| - 1]), names[|names| - 1])
  }

  /** The files with this suffix in order, but those gone before they could be stat'ed. */
  function Stated<K>(names: seq<string>, stat: string -> Option<K>): seq<K> {
    if names == [] then []
    else
      var n := |names| - 1;
      Stated(names[..n], stat) + match stat(names[n]) case None => [] case Some(k) => [k]
  }

  function Listed<K>(names: Option<seq<string>>, suffix: string, stat: string -> Option<K>): seq<K> {
    if names.None? then [] else Stated(Sorted(Matching(names.value, suffix)), stat)
  }

  method StatFiles<K>(names: Option<seq<string>>, suffix: string, stat: string -> Option<K>)
    returns (out: seq<K>)
    ensures out == Listed(names, suffix, stat)
  {
    hide Sorted, Matching;
    out := [];
    if names.None? { return; }
    var sorted := Sorted(Matching(names.value, suffix));
    var i := 0;
    while i < |sorted|
      invariant 0 <= i <= |sorted| && out == Stated(sorted[..i], stat)
    {
      assert sorted[..i + 1][..i] == sorted[..i];
      var k := stat(sorted[i]);
      if k.Some? {
        out := out + [k.value];
      }
      i := i + 1;
    }
    assert sorted[..i] == sorted;
  }

  // --- the order ---

  ghost predicate InOrder(names: seq<string>) {
    forall i, j :: 0 <= i < j < |names| ==> !Before(KeyOf(names[j]), KeyOf(names[i]))
  }

  lemma {:induction false} LessIsOrder(a: string, b: string, d: string)
    ensures Less(a, b) ==> !Less(b, a)
    ensures !Less(a, b) && !Less(b, a) ==> a == b
    ensures Less(a, b) && Less(b, d) ==> Less(a, d)
    decreases |a|
  {
    if a != [] && b != [] {
      LessIsOrder(a[1..], b[1..], if d == [] then [] else d[1..]);
      assert a == [a[0]] + a[1..] && b == [b[0]] + b[1..];
    }
  }

  /** Names of one key aside, any two files have an order, and only one. */
  lemma BeforeIsOrder(a: FileKey, b: FileKey, d: FileKey)
    ensures Before(a, b) ==> !Before(b, a)
    ensures !Before(a, b) && !Before(b, a) ==> a == b
    ensures !Before(a, b) && !Before(b, d) ==> !Before(a, d)
  {
    hide Less;
    if a.Name? && b.Name? && d.Name? {
      LessIsOrder(a.name, b.name, d.name);
      LessIsOrder(b.name, d.name, a.name);
      LessIsOrder(a.name, d.name, b.name);
      LessIsOrder(d.name, b.name, a.name);
    } else if a.Name? && b.Name? {
      LessIsOrder(a.name, b.name, []);
    }
  }

  lemma {:induction false} InsertKeeps(sorted: seq<string>, name: string)
    ensures multiset(Insert(sorted, name)) == multiset(sorted) + multiset{name}
  {
    hide Before, KeyOf;
    if sorted != [] {
      var n := |sorted| - 1;
      InsertKeeps(sorted[..n], name);
      assert sorted == sorted[..n] + [sorted[n]];
    }
  }

  lemma EmptyInOrder()
    ensures InOrder([])
  {
  }

  lemma InOrderFront(sorted: seq<string>, n: nat)
    requires InOrder(sorted) && n <= |sorted|
    ensures InOrder(sorted[..n])
  {
    hide Before, KeyOf;
  }

  lemma InOrderMore(sorted: seq<string>, name: string)
    requires InOrder(sorted) && forall x :: x in sorted ==> !Before(KeyOf(name), KeyOf(x))
    ensures InOrder(sorted + [name])
  {
    hide Before, KeyOf;
  }

  lemma LastIsGreatest(sorted: seq<string>, x: string)
    requires InOrder(sorted) && x in sorted
    ensures !Before(KeyOf(sorted[|sorted| - 1]), KeyOf(x))
  {
    hide KeyOf;
    BeforeIsOrder(KeyOf(x), KeyOf(x), KeyOf(x));
  }

  lemma {:induction false} InsertSorts(sorted: seq<string>, name: string)
    requires InOrder(sorted)
    ensures InOrder(Insert(sorted, name))
  {
    hide Before, KeyOf, InOrder;
    if sorted == [] {
      InOrderMore([], name) by { EmptyInOrder(); }
    } else {
      var n := |sorted| - 1;
      var last := sorted[n];
      if Before(KeyOf(name), KeyOf(last)) {
        var rest := Insert(sorted[..n], name);
        InOrderFront(sorted, n);
        InsertSorts(sorted[..n], name);
        InsertKeeps(sorted[..n], name);
        BeforeIsOrder(KeyOf(name), KeyOf(last), KeyOf(last));
        forall x | x in rest
          ensures !Before(KeyOf(last), KeyOf(x))
        {
          assert x in multiset(rest);
          if x != name { LastIsGreatest(sorted, x); }
        }
        InOrderMore(rest, last);
      } else {
        forall x | x in sorted
          ensures !Before(KeyOf(name), KeyOf(x))
        {
          LastIsGreatest(sorted, x);
          BeforeIsOrder(KeyOf(name), KeyOf(last), KeyOf(x));
        }
        InOrderMore(sorted, name);
      }
    }
  }

  lemma {:induction false} SortedIsInOrder(names: seq<string>)
    ensures InOrder(Sorted(names)) && multiset(Sorted(names)) == multiset(names)
  {
    hide Insert, InOrder;
    if names == [] {
      assert InOrder([]) by { EmptyInOrder(); }
    } else {
      var n := |names| - 1;
      SortedIsInOrder(names[..n]);
      InsertSorts(Sorted(names[..n]), names[n]);
      InsertKeeps(Sorted(names[..n]), names[n]);
      assert names == names[..n] + [names[n]];
    }
  }

  /** No two different files have the same number. */
  ghost predicate Distinct(names: seq<string>) {
    forall a, b :: a in names && b in names && KeyOf(a) == KeyOf(b) ==> a == b
  }

  lemma LastIsLast(a: seq<string>, b: seq<string>)
    requires InOrder(a) && InOrder(b) && multiset(a) == multiset(b) && Distinct(a) && a != []
    ensures b != [] && a[|a| - 1] == b[|b| - 1]
  {
    hide Before, KeyOf;
    var x := a[|a| - 1];
    assert x in multiset(b);
    assert b != [];
    var y := b[|b| - 1];
    assert y in multiset(a);
    BeforeIsOrder(KeyOf(x), KeyOf(y), KeyOf(y));
  }

  lemma FrontIsInOrder(a: seq<string>)
    requires InOrder(a) && Distinct(a) && a != []
    ensures InOrder(a[..|a| - 1]) && Distinct(a[..|a| - 1])
    ensures multiset(a[..|a| - 1]) == multiset(a) - multiset{a[|a| - 1]}
  {
    hide Before, KeyOf, InOrder;
    InOrderFront(a, |a| - 1);
    assert a == a[..|a| - 1] + [a[|a| - 1]];
  }

  lemma NothingElse(b: seq<string>)
    ensures multiset(b) == multiset{} ==> b == []
  {
    if b != [] { assert b[0] in multiset(b); }
  }

  lemma {:induction false} OrderIsUnique(a: seq<string>, b: seq<string>)
    requires InOrder(a) && InOrder(b) && multiset(a) == multiset(b) && Distinct(a)
    ensures a == b
    decreases |a|
  {
    hide InOrder, Distinct;
    SameDistinct(a, b);
    if a == [] {
      NothingElse(b);
    } else {
      LastIsLast(a, b);
      FrontIsInOrder(a);
      FrontIsInOrder(b);
      OrderIsUnique(a[..|a| - 1], b[..|b| - 1]);
      assert a == a[..|a| - 1] + [a[|a| - 1]] && b == b[..|b| - 1] + [b[|b| - 1]];
    }
  }

  lemma {:induction false} MatchingCounts(names: seq<string>, suffix: string, name: string)
    ensures multiset(Matching(names, suffix))[name] == if EndsWith(name, suffix) then multiset(names)[name] else 0
  {
    hide EndsWith;
    if names != [] {
      var n := |names| - 1;
      MatchingCounts(names[..n], suffix, name);
      assert names == names[..n] + [names[n]];
    }
  }

  // --- what a name says ---

  function Decimal(n: nat): string {
    (if n < 10 then "" else Decimal(n / 10)) + [DIGITS[n % 10]]
  }

  const DIGITS := "0123456789"

  lemma {:induction false} ZerosAreNothing(zeros: string, digits: string)
    requires (forall i :: 0 <= i < |zeros| ==> zeros[i] == '0') && Digits(digits)
    ensures Digits(zeros + digits) && Value(zeros + digits) == Value(digits)
    decreases |zeros| + |digits|
  {
    var all := zeros + digits;
    forall i | 0 <= i < |all|
      ensures Digit(all[i])
    {
      if i >= |zeros| { assert all[i] == digits[i - |zeros|]; }
    }
    if digits != [] {
      ZerosAreNothing(zeros, digits[..|digits| - 1]);
      assert all[..|all| - 1] == zeros + digits[..|digits| - 1];
    } else if zeros != [] {
      ZerosAreNothing(zeros[..|zeros| - 1], []);
      assert all[..|all| - 1] == zeros[..|zeros| - 1] + [];
    }
  }

  lemma {:induction false} DecimalIsValue(n: nat)
    ensures Decimal(n) != "" && Digits(Decimal(n)) && Value(Decimal(n)) == n
  {
    var last := [DIGITS[n % 10]];
    assert last[..0] == "" && Digits(last) && Value(last) == n % 10;
    if n >= 10 {
      DecimalIsValue(n / 10);
      var d := Decimal(n / 10) + last;
      assert d[..|d| - 1] == Decimal(n / 10);
      assert Digits(d);
    } else {
      assert "" + last == last;
    }
  }

  lemma {:induction false} StemIs(stem: string, rest: string)
    requires '.' !in stem && (rest == "" || rest[0] == '.')
    ensures Stem(stem + rest) == stem
  {
    if stem == [] {
      assert stem + rest == rest;
    } else {
      assert (stem + rest)[1..] == stem[1..] + rest;
      StemIs(stem[1..], rest);
      assert stem == [stem[0]] + stem[1..];
    }
  }

  /** A file number counts by its value, padded with zeros or not, whatever the
      extension; a name with anything but digits before its first dot, or nothing, is
      no number. */
  lemma NamesAreNumbers(zeros: string, n: nat, stem: string, rest: string)
    requires forall i :: 0 <= i < |zeros| ==> zeros[i] == '0'
    requires rest == "" || rest[0] == '.'
    ensures KeyOf(zeros + Decimal(n) + rest) == Number(n)
    ensures '.' !in stem && (stem == "" || exists i :: 0 <= i < |stem| && stem[i] !in "0123456789") ==>
      KeyOf(stem + rest) == Name(stem + rest)
  {
    hide Value, Decimal, Stem;
    DecimalIsValue(n);
    ZerosAreNothing(zeros, Decimal(n));
    var digits := zeros + Decimal(n);
    assert '.' !in digits;
    StemIs(digits, rest);
    if '.' !in stem {
      StemIs(stem, rest);
      if i :| 0 <= i < |stem| && stem[i] !in "0123456789" {
        NoDigit(stem[i]);
      }
    }
  }

  lemma NoDigit(ch: char)
    requires ch !in "0123456789"
    ensures !Digit(ch)
  {
    if Digit(ch) { DigitIn(ch); }
  }

  lemma DigitIn(ch: char)
    requires Digit(ch)
    ensures ch in "0123456789"
  {
    assert DIGITS[ch as int - '0' as int] == ch;
  }

  // --- which files ---

  lemma {:induction false} StatedHas<K>(names: seq<string>, stat: string -> Option<K>, k: K)
    ensures k in Stated(names, stat) <==> exists name :: name in names && stat(name) == Some(k)
  {
    if names != [] {
      var n := |names| - 1;
      StatedHas(names[..n], stat, k);
      assert names == names[..n] + [names[n]];
      assert names[n] in names;
    }
  }

  /** Exactly the files with the suffix are read that could be stat'ed; of a directory
      that cannot be listed, none. */
  lemma FilesListed<K>(names: seq<string>, suffix: string, stat: string -> Option<K>, k: K)
    ensures k in Listed(Some(names), suffix, stat) <==>
      exists name :: name in names && Suffixed(name, suffix) && stat(name) == Some(k)
    ensures Listed(None, suffix, stat) == []
  {
    hide Sorted, Matching, EndsWith, Stated, InOrder;
    var m := Matching(names, suffix);
    SortedIsInOrder(m);
    StatedHas(Sorted(m), stat, k);
    forall name
      ensures name in Sorted(m) <==> name in names && Suffixed(name, suffix)
    {
      MatchingCounts(names, suffix, name);
      SuffixedIs(name, suffix);
      assert name in Sorted(m) <==> name in multiset(Sorted(m));
      assert name in names <==> name in multiset(names);
    }
  }

  ghost predicate Suffixed(name: string, suffix: string) {
    exists front :: name == front + suffix
  }

  lemma SuffixedIs(name: string, suffix: string)
    ensures Suffixed(name, suffix) <==> EndsWith(name, suffix)
  {
    if EndsWith(name, suffix) {
      assert name == name[..|name| - |suffix|] + suffix;
    }
  }

  /** However the directory lists them, files of different numbers are read in the same
      order: by number, however many digits, and oddly named ones last. */
  lemma ListingOrderDoesNotMatter<K>(names: seq<string>, other: seq<string>, suffix: string, stat: string -> Option<K>)
    requires multiset(names) == multiset(other) && Distinct(Matching(names, suffix))
    ensures Listed(Some(names), suffix, stat) == Listed(Some(other), suffix, stat)
  {
    hide InOrder, Distinct, Sorted, Matching, EndsWith, Stated;
    var a, b := Matching(names, suffix), Matching(other, suffix);
    forall name
      ensures multiset(a)[name] == multiset(b)[name]
    {
      MatchingCounts(names, suffix, name);
      MatchingCounts(other, suffix, name);
    }
    assert multiset(a) == multiset(b);
    SortedIsInOrder(a);
    SortedIsInOrder(b);
    SameDistinct(a, Sorted(a));
    OrderIsUnique(Sorted(a), Sorted(b));
  }

  lemma SameDistinct(a: seq<string>, b: seq<string>)
    requires Distinct(a) && multiset(a) == multiset(b)
    ensures Distinct(b)
  {
    hide KeyOf;
    forall x | x in b
      ensures x in a
    {
      assert x in multiset(b);
    }
  }
}
