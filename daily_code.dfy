/**
 * The Code Breaker daily code (api/daily_code.js, and the identical copy in
 * api/validate_guess.js): a Park-Miller generator seeded with the UTC date
 * read as the number YYYYMMDD; its values modulo 10 are collected, in order
 * of first appearance, until five different digits have been seen.
 */
module DailyCode {
  import opened Wrappers
  import opened Http

  const Multiplier: nat := 16807
  const Modulus: nat := 2147483647

  /** One generator step (api/daily_code.js:11); every operand is non-negative, so `%` is exact. */
  function Lcg(rng: nat): (r: nat)
    ensures r < Modulus
  {
    (rng * Multiplier) % Modulus
  }

  /** The generator state after `k` steps from `seed`. */
  function State(seed: nat, k: nat): nat
  {
    if k == 0 then seed else Lcg(State(seed, k - 1))
  }

  /** The digits emitted by the first `n` steps (api/daily_code.js:11-12). */
  function Emitted(seed: nat, n: nat): (r: seq<int>)
    ensures |r| == n
  {
    if n == 0 then [] else Emitted(seed, n - 1) + [State(seed, n) % 10]
  }

  /** No element occurs twice. */
  predicate NoDuplicates<T(==)>(s: seq<T>)
  {
    forall i, j :: 0 <= i < j < |s| ==> s[i] != s[j]
  }

  /** A JavaScript `Set` filled from `s` by `add`: the distinct values in order of first insertion. */
  function InsertionOrdered<T(==)>(s: seq<T>): (r: seq<T>)
    ensures |r| <= |s|
  {
    if s == [] then []
    else
      var prefix := InsertionOrdered(s[..|s| - 1]);
      if s[|s| - 1] in prefix then prefix else prefix + [s[|s| - 1]]
  }

  /** The collected values are exactly the values of `s`, each once (the meaning of a `Set`). */
  lemma {:induction false} InsertionOrderedContents<T>(s: seq<T>)
    ensures NoDuplicates(InsertionOrdered(s))
    ensures forall x :: x in InsertionOrdered(s) <==> x in s
  {
    if s != [] {
      var init := s[..|s| - 1];
      assert s == init + [s[|s| - 1]];
      InsertionOrderedContents(init);
    }
  }

  /** Every emitted value is a digit. */
  lemma {:induction false} EmittedAreDigits(seed: nat, n: nat)
    ensures forall x :: x in Emitted(seed, n) ==> 0 <= x <= 9
  {
    if n > 0 {
      EmittedAreDigits(seed, n - 1);
    }
  }

  /** The index at which `x` first occurs in `s`. */
  function FirstIndex<T(==)>(s: seq<T>, x: T): (i: nat)
    requires x in s
    ensures i < |s| && s[i] == x && x !in s[..i]
  {
    if s[0] == x then 0 else 1 + FirstIndex(s[1..], x)
  }

  /** Appending to `s` does not move the first occurrence of a value already in `s`. */
  lemma {:induction false} FirstIndexAppend<T>(s: seq<T>, y: T, x: T)
    requires x in s
    ensures FirstIndex(s + [y], x) == FirstIndex(s, x)
  {
    if s[0] != x {
      assert (s + [y])[1..] == s[1..] + [y];
      FirstIndexAppend(s[1..], y, x);
    }
  }

  /** The collected values are ordered by the position at which each first appeared. */
  lemma {:induction false} InsertionOrderIsFirstAppearance<T>(s: seq<T>)
    ensures forall x :: x in InsertionOrdered(s) ==> x in s
    ensures forall i, j :: 0 <= i < j < |InsertionOrdered(s)| ==>
      FirstIndex(s, InsertionOrdered(s)[i]) < FirstIndex(s, InsertionOrdered(s)[j])
  {
    InsertionOrderedContents(s);
    if s != [] {
      var init := s[..|s| - 1];
      var x := s[|s| - 1];
      assert s == init + [x];
      InsertionOrderIsFirstAppearance(init);
      var p := InsertionOrdered(init);
      InsertionOrderedContents(init);
      forall y | y in p
        ensures FirstIndex(s, y) == FirstIndex(init, y) < |init|
      {
        assert y in init;
        FirstIndexAppend(init, x, y);
      }
      if x !in p {
        assert x !in init;
        assert FirstIndex(s, x) == |init|;
      }
    }
  }

  /** Extending the input never shrinks the collected set. */
  lemma {:induction false} InsertionOrderedGrows<T>(s: seq<T>, t: seq<T>)
    requires s <= t
    ensures |InsertionOrdered(s)| <= |InsertionOrdered(t)|
    decreases |t|
  {
    if |s| < |t| {
      InsertionOrderedGrows(s, t[..|t| - 1]);
    } else {
      assert s == t;
    }
  }

  /** One more step adds its digit to the collected ones unless it is already there. */
  lemma CollectStep(seed: nat, n: nat)
    ensures var prev := InsertionOrdered(Emitted(seed, n));
      var d := State(seed, n + 1) % 10;
      InsertionOrdered(Emitted(seed, n + 1)) == if d in prev then prev else prev + [d]
  {
    assert Emitted(seed, n + 1)[..n] == Emitted(seed, n);
  }

  /** The first `m` digits emitted are the same however many more follow. */
  lemma {:induction false} EmittedPrefix(seed: nat, m: nat, n: nat)
    requires m <= n
    ensures Emitted(seed, m) == Emitted(seed, n)[..m]
  {
    if m < n {
      EmittedPrefix(seed, m, n - 1);
      assert Emitted(seed, n)[..n - 1] == Emitted(seed, n - 1);
    }
  }

  /** The number of distinct digits after `n` steps. */
  function Collected(seed: nat, n: nat): nat
  {
    |InsertionOrdered(Emitted(seed, n))|
  }

  /** Emitting more digits never loses a collected one. */
  lemma CollectedGrows(seed: nat, m: nat, n: nat)
    requires m <= n
    ensures Collected(seed, m) <= Collected(seed, n)
  {
    var e := Emitted(seed, n);
    EmittedPrefix(seed, m, n);
    InsertionOrderedGrows(e[..m], e);
  }

  /** The loop of generateDailyCode exits after exactly `n` steps. */
  ghost predicate StopsAfter(seed: nat, n: nat)
  {
    n > 0 && Collected(seed, n) == 5 && Collected(seed, n - 1) < 5
  }

  /** There is at most one step count at which the loop exits. */
  lemma StopIsUnique(seed: nat, n: nat, m: nat)
    requires StopsAfter(seed, n) && StopsAfter(seed, m)
    ensures n == m
  {
    if n < m {
      CollectedGrows(seed, n, m - 1);
    } else if m < n {
      CollectedGrows(seed, m, n - 1);
    }
  }

  /** The numeral of a digit 0..9. */
  function DigitChar(d: int): (c: char)
    requires 0 <= d <= 9
    ensures '0' <= c <= '9'
  {
    ('0' as int + d) as char
  }

  /**
   * `Array.from(digits).join('')` for digits 0..9. The per-index ensures
   * only exposes the definition; the other two are what callers use.
   */
  function DigitString(ds: seq<int>): (s: string)
    requires forall i :: 0 <= i < |ds| ==> 0 <= ds[i] <= 9
    ensures |s| == |ds|
    ensures forall i :: 0 <= i < |s| ==> s[i] == DigitChar(ds[i])
    ensures NoDuplicates(ds) ==> NoDuplicates(s)
  {
    seq(|ds|, i requires 0 <= i < |ds| => DigitChar(ds[i]))
  }

  /** Emitted values are digits, so the collected ones are too. */
  lemma CollectedAreDigits(seed: nat, n: nat)
    ensures forall i :: 0 <= i < |InsertionOrdered(Emitted(seed, n))| ==>
      0 <= InsertionOrdered(Emitted(seed, n))[i] <= 9
  {
    var e := Emitted(seed, n);
    InsertionOrderedContents(e);
    EmittedAreDigits(seed, n);
    forall i | 0 <= i < |InsertionOrdered(e)|
      ensures 0 <= InsertionOrdered(e)[i] <= 9
    {
      var x := InsertionOrdered(e)[i];
      assert x in e;
    }
  }

  /** `c` is the code generateDailyCode returns for `seed`. */
  ghost predicate IsDailyCode(seed: nat, c: string)
  {
    exists n :: StopsAfter(seed, n) && c == CodeAfter(seed, n)
  }

  /** The code formed from the digits collected in `n` steps. */
  function CodeAfter(seed: nat, n: nat): string
  {
    CollectedAreDigits(seed, n);
    DigitString(InsertionOrdered(Emitted(seed, n)))
  }

  /** The code collected when the loop exits has five different digits and is the daily code. */
  lemma StopGivesCode(seed: nat, n: nat)
    requires StopsAfter(seed, n)
    ensures |CodeAfter(seed, n)| == 5 && NoDuplicates(CodeAfter(seed, n))
    ensures forall i :: 0 <= i < 5 ==> '0' <= CodeAfter(seed, n)[i] <= '9'
    ensures IsDailyCode(seed, CodeAfter(seed, n))
  {
    InsertionOrderedContents(Emitted(seed, n));
  }

  /** When `fuel` steps collect fewer than five digits, so does every shorter run. */
  lemma OutOfFuel(seed: nat, fuel: nat)
    requires Collected(seed, fuel) < 5
    ensures forall n: nat :: n <= fuel ==> Collected(seed, n) < 5
  {
    forall n: nat | n <= fuel
      ensures Collected(seed, n) < 5
    {
      CollectedGrows(seed, n, fuel);
    }
  }

  /** The daily code is a function of the seed alone. */
  lemma DailyCodeIsUnique(seed: nat, c1: string, c2: string)
    requires IsDailyCode(seed, c1) && IsDailyCode(seed, c2)
    ensures c1 == c2
  {
    var n1 :| StopsAfter(seed, n1) && c1 == CodeAfter(seed, n1);
    var n2 :| StopsAfter(seed, n2) && c2 == CodeAfter(seed, n2);
    StopIsUnique(seed, n1, n2);
  }

  /** A UTC calendar date with a four-digit year, the range `toISOString` prints as YYYY-MM-DD. */
  datatype UtcDate = UtcDate(year: int, month: int, day: int)

  predicate ValidDate(d: UtcDate)
  {
    0 <= d.year <= 9999 && 1 <= d.month <= 12 && 1 <= d.day <= 31
  }

  function Pow10(k: nat): (p: nat)
    ensures p >= 1
  {
    if k == 0 then 1 else 10 * Pow10(k - 1)
  }

  predicate AllDigits(s: string)
  {
    forall i :: 0 <= i < |s| ==> '0' <= s[i] <= '9'
  }

  /** The last `width` decimal digits of `n`, zero-padded. */
  function Numeral(n: nat, width: nat): (s: string)
    ensures |s| == width && AllDigits(s)
  {
    if width == 0 then "" else Numeral(n / 10, width - 1) + [DigitChar(n % 10)]
  }

  /** `new Date().toISOString().split('T')[0]` (api/daily_code.js:3): the date as YYYY-MM-DD. */
  function IsoDay(d: UtcDate): (s: string)
    requires ValidDate(d)
  {
    Numeral(d.year, 4) + "-" + Numeral(d.month, 2) + "-" + Numeral(d.day, 2)
  }

  /** `s.replace(/-/g, '')`: every hyphen removed, everything else kept in order. */
  function WithoutHyphens(s: string): (r: string)
    ensures |r| <= |s|
  {
    if s == [] then [] else (if s[0] == '-' then [] else [s[0]]) + WithoutHyphens(s[1..])
  }

  /** Removing hyphens keeps every character except '-', and only those. */
  lemma {:induction false} WithoutHyphensMembers(s: string)
    ensures forall c :: c in WithoutHyphens(s) <==> c in s && c != '-'
  {
    if s != [] {
      WithoutHyphensMembers(s[1..]);
      assert s == [s[0]] + s[1..];
    }
  }

  /** `parseInt(s)` on a string of decimal digits. */
  function DecimalValue(s: string): (n: nat)
    requires AllDigits(s)
  {
    if s == [] then 0 else DecimalValue(s[..|s| - 1]) * 10 + (s[|s| - 1] as int - '0' as int)
  }

  lemma {:induction false} WithoutHyphensAppend(a: string, b: string)
    ensures WithoutHyphens(a + b) == WithoutHyphens(a) + WithoutHyphens(b)
  {
    if a == [] {
      assert a + b == b;
    } else {
      assert (a + b)[1..] == a[1..] + b;
      WithoutHyphensAppend(a[1..], b);
    }
  }

  lemma {:induction false} WithoutHyphensKeepsDigits(s: string)
    requires AllDigits(s)
    ensures WithoutHyphens(s) == s
  {
    if s != [] {
      WithoutHyphensKeepsDigits(s[1..]);
    }
  }

  lemma AllDigitsAppend(a: string, b: string)
    requires AllDigits(a) && AllDigits(b)
    ensures AllDigits(a + b)
  {
    assert forall i :: |a| <= i < |a + b| ==> (a + b)[i] == b[i - |a|];
  }

  lemma {:induction false} DecimalValueAppend(a: string, b: string)
    requires AllDigits(a) && AllDigits(b)
    ensures AllDigits(a + b)
    ensures DecimalValue(a + b) == DecimalValue(a) * Pow10(|b|) + DecimalValue(b)
    decreases |b|
  {
    AllDigitsAppend(a, b);
    if b == [] {
      assert a + b == a;
    } else {
      var b' := b[..|b| - 1];
      var c := b[|b| - 1] as int - '0' as int;
      assert (a + b)[..|a + b| - 1] == a + b';
      DecimalValueAppend(a, b');
      var x, y, p := DecimalValue(a), DecimalValue(b'), Pow10(|b'|);
      assert DecimalValue(a + b) == DecimalValue(a + b') * 10 + c;
      assert DecimalValue(b) == y * 10 + c;
      assert Pow10(|b|) == 10 * p;
      ShiftDigit(x, p, y, c);
    }
  }

  /** Appending one digit multiplies the value by ten and adds the digit. */
  lemma ShiftDigit(x: int, p: int, y: int, c: int)
    ensures (x * p + y) * 10 + c == x * (10 * p) + (y * 10 + c)
  {
  }

  /** A zero-padded numeral reads back as the number it was made from. */
  lemma {:induction false} NumeralValue(n: nat, width: nat)
    requires n < Pow10(width)
    ensures DecimalValue(Numeral(n, width)) == n
  {
    if width > 0 {
      assert n / 10 < Pow10(width - 1);
      NumeralValue(n / 10, width - 1);
      assert Numeral(n, width)[..width - 1] == Numeral(n / 10, width - 1);
    }
  }

  /** Removing the hyphens of YYYY-MM-DD leaves the three numerals side by side. */
  lemma IsoDayWithoutHyphens(d: UtcDate)
    requires ValidDate(d)
    ensures WithoutHyphens(IsoDay(d)) == Numeral(d.year, 4) + Numeral(d.month, 2) + Numeral(d.day, 2)
  {
    var y, m, dd := Numeral(d.year, 4), Numeral(d.month, 2), Numeral(d.day, 2);
    assert WithoutHyphens("-") == [];
    var a := y + "-";
    WithoutHyphensAppend(y, "-");
    WithoutHyphensKeepsDigits(y);
    assert WithoutHyphens(a) == y;
    var b := a + m;
    WithoutHyphensAppend(a, m);
    WithoutHyphensKeepsDigits(m);
    assert WithoutHyphens(b) == y + m;
    var e := b + "-";
    WithoutHyphensAppend(b, "-");
    assert WithoutHyphens(e) == y + m;
    WithoutHyphensAppend(e, dd);
    WithoutHyphensKeepsDigits(dd);
    assert IsoDay(d) == e + dd;
  }

  /** Three numerals of widths 4, 2 and 2 side by side read as one eight-digit number. */
  lemma JoinedNumeralsValue(y: nat, m: nat, d: nat)
    requires y < 10000 && m < 100 && d < 100
    ensures AllDigits(Numeral(y, 4) + Numeral(m, 2) + Numeral(d, 2))
    ensures DecimalValue(Numeral(y, 4) + Numeral(m, 2) + Numeral(d, 2)) == y * 10000 + m * 100 + d
  {
    var ys, ms, ds := Numeral(y, 4), Numeral(m, 2), Numeral(d, 2);
    assert Pow10(2) == 100 && Pow10(4) == 10000;
    NumeralValue(y, 4);
    NumeralValue(m, 2);
    NumeralValue(d, 2);
    AllDigitsAppend(ys, ms);
    AllDigitsAppend(ys + ms, ds);
    DecimalValueAppend(ys, ms);
    DecimalValueAppend(ys + ms, ds);
  }

  /** YYYYMMDD read as a decimal number. */
  lemma IsoDayValue(d: UtcDate)
    requires ValidDate(d)
    ensures AllDigits(WithoutHyphens(IsoDay(d)))
    ensures DecimalValue(WithoutHyphens(IsoDay(d))) == d.year * 10000 + d.month * 100 + d.day
  {
    IsoDayWithoutHyphens(d);
    JoinedNumeralsValue(d.year, d.month, d.day);
  }

  /** The seed of api/daily_code.js:3-4: the date read as the decimal number YYYYMMDD. */
  function DateSeed(d: UtcDate): (seed: nat)
    requires ValidDate(d)
    ensures seed == d.year * 10000 + d.month * 100 + d.day
  {
    IsoDayValue(d);
    DecimalValue(WithoutHyphens(IsoDay(d)))
  }

  /** Distinct days give distinct seeds, so the code can change every day. */
  lemma DistinctDaysDistinctSeeds(d1: UtcDate, d2: UtcDate)
    requires ValidDate(d1) && ValidDate(d2) && d1 != d2
    ensures DateSeed(d1) != DateSeed(d2)
  {
    if d1.year != d2.year {
      var (lo, hi) := if d1.year < d2.year then (d1, d2) else (d2, d1);
      assert DateSeed(lo) < (lo.year + 1) * 10000 <= hi.year * 10000 <= DateSeed(hi);
    } else if d1.month != d2.month {
      var (lo, hi) := if d1.month < d2.month then (d1, d2) else (d2, d1);
      assert DateSeed(lo) < lo.year * 10000 + (lo.month + 1) * 100 <= DateSeed(hi);
    }
  }

  /**
   * generateDailyCode (api/daily_code.js:2-17) from the seed on. Whether the
   * loop ends for every seed is not known to the model, so it runs at most
   * `fuel` steps and answers `None` when the fuel runs out first.
   */
  method GenerateDailyCode(seed: nat, fuel: nat) returns (code: Option<string>)
    ensures code.Some? ==> |code.value| == 5 && NoDuplicates(code.value)
    ensures code.Some? ==> forall i :: 0 <= i < 5 ==> '0' <= code.value[i] <= '9'
    ensures code.Some? ==> IsDailyCode(seed, code.value)
    ensures code.None? <==> forall n: nat :: n <= fuel ==> Collected(seed, n) < 5
  {
    var digits: seq<int> := [];
    var rng := seed;
    var steps := 0;
    while |digits| < 5 && steps < fuel
      invariant steps <= fuel
      invariant rng == State(seed, steps)
      invariant digits == InsertionOrdered(Emitted(seed, steps))
      invariant steps > 0 ==> Collected(seed, steps - 1) < 5
      decreases fuel - steps
    {
      rng := (rng * 16807) % 2147483647;
      var digit := rng % 10;
      CollectStep(seed, steps);
      if digit !in digits {
        digits := digits + [digit];
      }
      steps := steps + 1;
    }
    if |digits| < 5 {
      OutOfFuel(seed, fuel);
      return None;
    }
    assert Collected(seed, steps) == 5;
    StopGivesCode(seed, steps);
    CollectedAreDigits(seed, steps);
    code := Some(DigitString(digits));
  }

  /** The first six digits the generator emits from seed 20240115. */
  lemma EmittedFrom20240115()
    ensures Emitted(20240115, 6) == [9, 2, 9, 3, 0, 7]
  {
    var seed := 20240115;
    assert State(seed, 1) == 873196579;
    assert State(seed, 2) == 2059143302;
    assert State(seed, 3) == 1322505309;
    assert State(seed, 4) == 890981913;
    assert State(seed, 5) == 329541260;
    assert State(seed, 6) == 239631207;
  }

  /** The `Set` filled by the digits 9, 2, 9, 3, 0, 7: the second 9 is not added again. */
  lemma CollectedFrom20240115()
    ensures InsertionOrdered([9, 2, 9, 3, 0]) == [9, 2, 3, 0]
    ensures InsertionOrdered([9, 2, 9, 3, 0, 7]) == [9, 2, 3, 0, 7]
  {
    assert [9, 2, 9, 3, 0, 7][..5] == [9, 2, 9, 3, 0];
    assert [9, 2, 9, 3, 0][..4] == [9, 2, 9, 3];
    assert [9, 2, 9, 3][..3] == [9, 2, 9];
    assert [9, 2, 9][..2] == [9, 2];
    assert [9, 2][..1] == [9];
    assert [9][..0] == [];
  }

  /** From seed 20240115 (the seed of 2024-01-15) the generator stops after six steps with code 92307. */
  lemma CodeOn20240115()
    ensures StopsAfter(20240115, 6) && CodeAfter(20240115, 6) == "92307"
    ensures IsDailyCode(20240115, "92307")
  {
    EmittedFrom20240115();
    EmittedPrefix(20240115, 5, 6);
    assert [9, 2, 9, 3, 0, 7][..5] == [9, 2, 9, 3, 0];
    CollectedFrom20240115();
  }

  /** handler of api/daily_code.js:19-33 on a request made on day `today`. */
  method HandleDailyCode(httpMethod: string, today: UtcDate, fuel: nat) returns (r: Response<string, ()>)
    requires ValidDate(today)
    ensures httpMethod != "GET" ==> r == MethodNotAllowed("GET")
    ensures httpMethod == "GET" ==> r.Ok? || r.Unanswered?
    ensures r.Ok? ==> IsDailyCode(DateSeed(today), r.body) && |r.body| == 5 && NoDuplicates(r.body)
    ensures r.Unanswered? <==> httpMethod == "GET" && forall n: nat :: n <= fuel ==> Collected(DateSeed(today), n) < 5
  {
    if httpMethod == "GET" {
      var code := GenerateDailyCode(DateSeed(today), fuel);
      if code.Some? {
        r := Ok(code.value);
      } else {
        r := Unanswered;
      }
    } else {
      r := MethodNotAllowed("GET");
    }
  }
}
