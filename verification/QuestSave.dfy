/**
 The texts that saves are made of: explode and find of src/util.cpp, decimal numbers, the narrowing to a short,
 and the progress map of src/quest.cpp.
 */
module QuestSave {
  import opened Lexer
  import opened Spelling

  // -- Splitting ------------------------------------------------------------------------

  function Before(c: char, s: string): (r: string)
    ensures c !in r && |r| <= |s| && (c in s ==> |r| < |s| && s[..|r| + 1] == r + [c])
  {
    if s == "" || s[0] == c then "" else [s[0]] + Before(c, s[1..])
  }

  function After(c: char, s: string): (r: string)
    ensures c in s ==> |r| < |s|
  {
    if s == "" then "" else if s[0] == c then s[1..] else After(c, s[1..])
  }

  function Pieces(c: char, s: string): seq<string>
    decreases |s|
  {
    if c in s then [Before(c, s)] + Pieces(c, After(c, s)) else [s]
  }

  lemma {:induction false} CutFirst(c: char, a: string, b: string)
    requires c !in a
    ensures c in a + [c] + b && Before(c, a + [c] + b) == a && After(c, a + [c] + b) == b
  {
    var s := a + [c] + b;
    assert s[|a|] == c;
    if a == "" {
      assert s[1..] == b;
    } else {
      assert s[0] == a[0] && s[0] in a;
      assert s[1..] == a[1..] + [c] + b;
      CutFirst(c, a[1..], b);
    }
  }

  lemma CutAt(c: char, s: string, pos: nat)
    requires pos < |s| && s[pos] == c && c !in s[..pos]
    ensures c in s && Before(c, s) == s[..pos] && After(c, s) == s[pos + 1..]
  {
    CutFirst(c, s[..pos], s[pos + 1..]);
    assert s == s[..pos] + [c] + s[pos + 1..];
  }

  /** find_first_of: the length of s stands for npos. */
  method Find(c: char, s: string, from: nat) returns (pos: nat)
    requires from <= |s|
    ensures from <= pos <= |s| && c !in s[from..pos] && (pos < |s| ==> s[pos] == c)
  {
    pos := from;
    while pos < |s| && s[pos] != c
      invariant from <= pos <= |s| && c !in s[from..pos]
    {
      pos := pos + 1;
    }
  }

  /** The next piece of s ends at pos. */
  lemma NextPiece(pieces: seq<string>, c: char, s: string, last: nat, pos: nat)
    requires last <= pos < |s| && s[pos] == c && c !in s[last..pos]
    ensures pieces + Pieces(c, s[last..]) == pieces + [s[last..pos]] + Pieces(c, s[pos + 1..])
  {
    var r := s[last..];
    assert r[..pos - last] == s[last..pos] && r[pos - last + 1..] == s[pos + 1..];
    CutAt(c, r, pos - last);
    assert pieces + ([s[last..pos]] + Pieces(c, s[pos + 1..])) == pieces + [s[last..pos]] + Pieces(c, s[pos + 1..]);
  }

  method Explode(c: char, s: string) returns (pieces: seq<string>)
    ensures pieces == Pieces(c, s)
  {
    pieces := [];
    var last := 0;
    var pos := Find(c, s, 0);
    while pos < |s|
      invariant last <= pos <= |s| && c !in s[last..pos] && (pos < |s| ==> s[pos] == c)
      invariant pieces + Pieces(c, s[last..]) == Pieces(c, s)
    {
      NextPiece(pieces, c, s, last, pos);
      pieces := pieces + [s[last..pos]];
      last := pos + 1;
      pos := Find(c, s, last);
    }
    pieces := pieces + [s[last..]];
  }

  // -- Numbers; ids and the values of counters are shorts -------------------------------

  type Short = n: int | -0x8000 <= n < 0x8000

  function IntText(n: int): string {
    if n < 0 then "-" + Decimal(-n) else Decimal(n)
  }

  function ToInt(s: string): int {
    if s != "" && s[0] == '-' then -Value(s[1..]) else Value(s)
  }

  /** The conversion of an int to a short. */
  function Wrap(n: int): Short {
    (n + 0x8000) % 0x1_0000 - 0x8000
  }

  function Digit(c: char): int {
    c as int - '0' as int
  }

  function ReadShort(s: string, v: int): int {
    if s == "" then v else ReadShort(s[1..], Wrap(Wrap(v * 10) + Digit(s[0])))
  }

  /** The number without the wrap-around. */
  function Horner(s: string, v: int): int {
    if s == "" then v else Horner(s[1..], v * 10 + Digit(s[0]))
  }

  function Pow10(n: nat): int {
    if n == 0 then 1 else 10 * Pow10(n - 1)
  }

  lemma IntReads(n: int)
    ensures ToInt(IntText(n)) == n
  {
    if n < 0 {
      DecimalReads(-n);
      assert ("-" + Decimal(-n))[1..] == Decimal(-n);
    } else {
      DecimalReads(n);
    }
  }

  lemma WrapShifts(n: int, q: int)
    ensures Wrap(n + 0x1_0000 * q) == Wrap(n)
  {
  }

  /** Wrapping early makes no difference. */
  lemma WrapStep(v: int, d: int)
    ensures Wrap(Wrap(Wrap(v) * 10) + d) == Wrap(v * 10 + d)
  {
    var k := (v + 0x8000) / 0x1_0000;
    assert Wrap(v) == v + 0x1_0000 * -k;
    WrapShifts(v * 10, -k * 10);
    var l := (v * 10 + 0x8000) / 0x1_0000;
    assert Wrap(v * 10) == v * 10 + 0x1_0000 * -l;
    WrapShifts(v * 10 + d, -l);
  }

  lemma {:induction false} ShortIsWrapped(s: string, v: int)
    ensures ReadShort(s, Wrap(v)) == Wrap(Horner(s, v))
  {
    if s != "" {
      WrapStep(v, Digit(s[0]));
      ShortIsWrapped(s[1..], v * 10 + Digit(s[0]));
    }
  }

  lemma {:induction false} HornerAppends(a: string, b: string, v: int)
    ensures Horner(a + b, v) == Horner(b, Horner(a, v))
  {
    if a == "" {
      assert a + b == b;
    } else {
      assert (a + b)[1..] == a[1..] + b;
      HornerAppends(a[1..], b, v * 10 + Digit(a[0]));
    }
  }

  lemma {:induction false} HornerDecimal(n: nat, v: int)
    ensures Horner(Decimal(n), v) == v * Pow10(|Decimal(n)|) + n
  {
    var last := ['0' + (n % 10) as char];
    assert Horner(last[1..], v) == v;
    if n >= 10 {
      HornerDecimal(n / 10, v);
      HornerAppends(Decimal(n / 10), last, v);
      assert Horner(last, Horner(Decimal(n / 10), v)) == Horner(Decimal(n / 10), v) * 10 + n % 10;
      assert Pow10(|Decimal(n)|) == 10 * Pow10(|Decimal(n / 10)|);
    }
  }

  /** The width of a short's digits, as the power of ten above it. */
  lemma Width(n: nat)
    requires n <= 0x8000
    ensures Pow10(|Decimal(n)|) ==
      if n < 10 then 10 else if n < 100 then 100 else if n < 1000 then 1000 else if n < 10000 then 10000 else 100000
  {
    if n >= 10 {
      Width(n / 10);
      assert Pow10(|Decimal(n)|) == 10 * Pow10(|Decimal(n / 10)|);
    }
  }

  lemma WrapFixes(n: Short)
    ensures Wrap(n) == n
  {
  }

  lemma HornerMinus(m: int)
    requires m > 0
    ensures ReadShort(IntText(-m), 0) == Wrap(m - 3 * Pow10(|Decimal(m)|))
  {
    var s := Decimal(m);
    assert ("-" + s)[1..] == s;
    assert Wrap(-3) == -3;
    assert ReadShort("-" + s, 0) == ReadShort(s, Wrap(-3));
    ShortIsWrapped(s, -3);
    HornerDecimal(m, -3);
  }

  /** What is read for the negative number of m: the minus sign counts as the digit -3. */
  lemma MinusReads(m: int)
    requires 0 < m <= 0x8000
    ensures ReadShort(IntText(-m), 0) == if m < 10000 then m - 3 * Pow10(|Decimal(m)|) else m - 37856
  {
    HornerMinus(m);
    Width(m);
    var n := m - 3 * Pow10(|Decimal(m)|);
    if m >= 10000 {
      assert n == m - 300000;
      WrapFixes(m - 37856);
      WrapShifts(m - 37856, -4);
      assert m - 37856 + 0x1_0000 * -4 == n;
    } else {
      WrapFixes(n);
    }
  }

  /** A counter is read back exactly when it is not negative, except that one negative number happens to be. */
  lemma ShortExactly(v: int)
    requires -0x8000 <= v < 0x8000
    ensures ReadShort(IntText(v), 0) == v <==> v >= 0 || v == -18928
  {
    if v >= 0 {
      ShortIsWrapped(Decimal(v), 0);
      HornerDecimal(v, 0);
    } else {
      MinusReads(-v);
      Width(-v);
    }
  }

  // -- The progress map -----------------------------------------------------------------

  /** std::map visits its keys in one order, each of them once. */
  ghost predicate Orders(order: seq<string>, m: map<string, int>) {
    && (forall k :: k in order <==> k in m)
    && (forall i, j :: 0 <= i < j < |order| ==> order[i] != order[j])
  }

  function Pairs(order: seq<string>, m: map<string, int>): string
    requires forall k :: k in order ==> k in m
  {
    if order == [] then ""
    else order[0] + "=" + IntText(m[order[0]]) + (if |order| > 1 then "," else "") + Pairs(order[1..], m)
  }

  function ProgressText(order: seq<string>, m: map<string, int>): string
    requires forall k :: k in order ==> k in m
  {
    "{" + Pairs(order, m) + "}"
  }

  /** What the scanner of a progress text adds to m; it stops at a closing brace. */
  function Scanned(s: string, key: string, value: int, inValue: bool, m: map<string, int>): map<string, int>
    decreases |s|
  {
    if s == "" || s[0] == '}' then (if inValue then m[key := value] else m)
    else if !inValue then
      if s[0] == '=' then Scanned(s[1..], key, value, true, m) else Scanned(s[1..], key + [s[0]], value, false, m)
    else if s[0] == ',' then Scanned(s[1..], "", 0, false, m[key := value])
    else Scanned(s[1..], key, Wrap(Wrap(value * 10) + Digit(s[0])), true, m)
  }

  function ProgressOf(s: string, m: map<string, int>): map<string, int> {
    if s == "" || s[0] != '{' then m else Scanned(s[1..], "", 0, false, m)
  }

  predicate CleanKey(k: string) {
    '=' !in k && '}' !in k && ';' !in k
  }

  lemma {:induction false} KeyScans(k: string, rest: string, key: string, m: map<string, int>)
    requires CleanKey(k)
    ensures Scanned(k + "=" + rest, key, 0, false, m) == Scanned(rest, key + k, 0, true, m)
  {
    var s := k + "=" + rest;
    if k == "" {
      assert s[1..] == rest && key + k == key;
    } else {
      assert s[0] == k[0] && s[1..] == k[1..] + "=" + rest;
      assert key + [k[0]] + k[1..] == key + k;
      KeyScans(k[1..], rest, key + [k[0]], m);
    }
  }

  lemma {:induction false} ValueScans(d: string, rest: string, key: string, v: int, m: map<string, int>)
    requires ',' !in d && '}' !in d
    ensures Scanned(d + rest, key, v, true, m) == Scanned(rest, key, ReadShort(d, v), true, m)
  {
    var s := d + rest;
    if d == "" {
      assert s == rest;
    } else {
      assert s[0] == d[0] && s[1..] == d[1..] + rest;
      ValueScans(d[1..], rest, key, Wrap(Wrap(v * 10) + Digit(d[0])), m);
    }
  }

  predicate Plain(s: string) {
    forall i :: 0 <= i < |s| ==> IsDigit(s[i]) || s[i] == '-'
  }

  lemma IntIsPlain(n: int)
    ensures Plain(IntText(n))
  {
    if n < 0 {
      DecimalReads(-n);
    } else {
      DecimalReads(n);
    }
  }

  function ReadBack(v: int): int {
    ReadShort(IntText(v), 0)
  }

  /** Inserting the values that are read back, in the order of the keys. */
  function Filled(order: seq<string>, m: map<string, int>, start: map<string, int>): map<string, int>
    requires forall k :: k in order ==> k in m
    decreases |order|
  {
    if order == [] then start else Filled(order[1..], m, start[order[0] := ReadBack(m[order[0]])])
  }

  lemma PairScans(k: string, v: int, rest: string, m: map<string, int>)
    requires CleanKey(k)
    ensures Scanned(k + "=" + (IntText(v) + rest), "", 0, false, m) == Scanned(rest, k, ReadBack(v), true, m)
  {
    KeyScans(k, IntText(v) + rest, "", m);
    assert "" + k == k;
    IntIsPlain(v);
    ValueScans(IntText(v), rest, k, 0, m);
  }

  lemma Regroup3<T>(k: seq<T>, e: seq<T>, v: seq<T>, c: seq<T>, p: seq<T>, end: seq<T>)
    ensures k + e + v + c + p + end == k + e + (v + (c + (p + end)))
  {
  }

  lemma {:induction false} PairsScan(order: seq<string>, m: map<string, int>, start: map<string, int>)
    requires forall k :: k in order ==> k in m && CleanKey(k)
    ensures Scanned(Pairs(order, m) + "}", "", 0, false, start) == Filled(order, m, start)
    decreases |order|
  {
    if order != [] {
      var k, v := order[0], IntText(m[order[0]]);
      var more := Pairs(order[1..], m) + "}";
      var comma := if |order| > 1 then "," else "";
      PairsScan(order[1..], m, start[k := ReadBack(m[k])]);
      Regroup3(k, "=", v, comma, Pairs(order[1..], m), "}");
      PairScans(k, m[k], comma + more, start);
      if |order| > 1 {
        assert ("," + more)[1..] == more;
      } else {
        assert comma + more == more;
      }
    }
  }

  lemma {:induction false} FilledHolds(order: seq<string>, m: map<string, int>, start: map<string, int>)
    requires forall k :: k in order ==> k in m
    requires forall i, j :: 0 <= i < j < |order| ==> order[i] != order[j]
    ensures var r := Filled(order, m, start);
      && (forall k :: k in r <==> k in start || k in order)
      && (forall k :: k in r ==> r[k] == if k in order then ReadBack(m[k]) else start[k])
    decreases |order|
  {
    if order != [] {
      var next := start[order[0] := ReadBack(m[order[0]])];
      FilledHolds(order[1..], m, next);
      assert forall k :: k in order <==> k == order[0] || k in order[1..];
    }
  }

  lemma TextStarts(order: seq<string>, m: map<string, int>)
    requires forall k :: k in order ==> k in m
    ensures ProgressText(order, m)[0] == '{' && ProgressText(order, m)[1..] == Pairs(order, m) + "}"
  {
  }

  lemma ProgressReads(order: seq<string>, m: map<string, int>)
    requires Orders(order, m) && forall k :: k in m ==> CleanKey(k)
    ensures ProgressOf(ProgressText(order, m), map[]) == map k | k in m :: ReadBack(m[k])
  {
    TextStarts(order, m);
    PairsScan(order, m, map[]);
    FilledHolds(order, m, map[]);
  }

  predicate Restorable(v: int) {
    v >= 0 || v == -18928
  }

  /** A progress map comes back with every key, and unchanged exactly when each of its values does. */
  lemma ProgressExactly(order: seq<string>, m: map<string, int>)
    requires Orders(order, m) && forall k :: k in m ==> CleanKey(k) && -0x8000 <= m[k] < 0x8000
    ensures ProgressOf(ProgressText(order, m), map[]) == m <==> forall k :: k in m ==> Restorable(m[k])
  {
    ProgressReads(order, m);
    var r := map k | k in m :: ReadBack(m[k]);
    forall k | k in m ensures r[k] == m[k] <==> Restorable(m[k]) {
      ShortExactly(m[k]);
    }
    assert r == m <==> forall k :: k in m ==> r[k] == m[k];
  }

  /** A counter of -5 becomes another one with every save and load. */
  lemma NegativeChanges(key: string)
    requires CleanKey(key)
    ensures ProgressOf(ProgressText([key], map[key := -5]), map[]) == map[key := -25]
    ensures ProgressOf(ProgressText([key], map[key := -25]), map[]) == map[key := -275]
  {
    MinusReads(5);
    MinusReads(25);
    Width(5);
    Width(25);
    ProgressReads([key], map[key := -5]);
    ProgressReads([key], map[key := -25]);
  }
}
