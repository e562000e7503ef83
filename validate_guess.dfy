/**
 * The Code Breaker guess endpoint (api/validate_guess.js): the guess is
 * checked for format and for repeated digits, then compared with the daily
 * code in two passes, exact positions first and right digits in the wrong
 * place second.
 */
module ValidateGuess {
  import opened Wrappers
  import opened DailyCode
  import opened Http

  /** Guesses and codes have this many digits; the scoring loops run to it. */
  const CodeLength: nat := 5

  /** `guess && /^\d{5}$/.test(guess)` (api/validate_guess.js:42). */
  predicate IsFiveDigits(s: string)
  {
    |s| == CodeLength && AllDigits(s)
  }

  /** `new Set(s.split('')).size`: the number of different characters. */
  function DistinctChars(s: string): nat
  {
    |set c | c in s|
  }

  /** A string has as many different characters as its length exactly when none repeats. */
  lemma {:induction false} DistinctCharsCountsRepeats(s: string)
    ensures DistinctChars(s) <= |s|
    ensures DistinctChars(s) == |s| <==> NoDuplicates(s)
  {
    if s != [] {
      var init, last := s[..|s| - 1], s[|s| - 1];
      assert s == init + [last];
      DistinctCharsCountsRepeats(init);
      CharsOfSnoc(init, last);
      if last in init {
        var k :| 0 <= k < |init| && init[k] == last;
        assert s[k] == s[|s| - 1];
      } else {
        NoDuplicatesSnoc(init, last);
      }
    }
  }

  lemma CharsOfSnoc(s: string, x: char)
    ensures (set c | c in s + [x]) == (set c | c in s) + {x}
  {
  }

  lemma NoDuplicatesSnoc(s: string, x: char)
    requires x !in s
    ensures NoDuplicates(s + [x]) <==> NoDuplicates(s)
  {
    assert (s + [x])[..|s|] == s;
  }

  /** The indices below `n` at which guess and code agree; the ensures only exposes the definition as a membership test. */
  function ExactSet(g: string, c: string, n: nat): (r: set<int>)
    requires n <= |g| && n <= |c|
    ensures forall i :: i in r <==> 0 <= i < n && g[i] == c[i]
  {
    set i | 0 <= i < n && g[i] == c[i]
  }

  /** How many indices below `n` hold the same digit in guess and code. */
  function ExactCount(g: string, c: string, n: nat): (r: nat)
    requires n <= |g| && n <= |c|
    ensures r <= n
  {
    if n == 0 then 0 else ExactCount(g, c, n - 1) + (if g[n - 1] == c[n - 1] then 1 else 0)
  }

  /** Every position agrees exactly when guess and code are the same string. */
  lemma {:induction false} ExactCountFull(g: string, c: string, n: nat)
    requires n <= |g| && n <= |c|
    ensures ExactCount(g, c, n) == n <==> g[..n] == c[..n]
  {
    if n > 0 {
      ExactCountFull(g, c, n - 1);
      assert g[..n] == g[..n - 1] + [g[n - 1]];
      assert c[..n] == c[..n - 1] + [c[n - 1]];
      if g[..n] == c[..n] {
        assert g[..n - 1] == g[..n][..n - 1];
        assert c[..n - 1] == c[..n][..n - 1];
      }
    }
  }

  /** Guess indices below `n` that miss their own position but whose digit occurs somewhere in the code. */
  function MisplacedCount(g: string, c: string, n: nat): (r: nat)
    requires n <= |g| && n <= |c|
    ensures r <= n
  {
    if n == 0 then 0
    else MisplacedCount(g, c, n - 1) + (if g[n - 1] != c[n - 1] && g[n - 1] in c then 1 else 0)
  }

  /** An index is never both an exact hit and a misplaced digit. */
  lemma {:induction false} ExactAndMisplacedFit(g: string, c: string, n: nat)
    requires n <= |g| && n <= |c|
    ensures ExactCount(g, c, n) + MisplacedCount(g, c, n) <= n
  {
    if n > 0 {
      ExactAndMisplacedFit(g, c, n - 1);
    }
  }

  /** The response body of api/validate_guess.js:87. */
  datatype Score = Score(correctPosition: nat, correctDigit: nat, isCorrect: bool)

  // ---------------------------------------------------------------------
  // The scorer as written: one set serves for guess and code indices.
  // ---------------------------------------------------------------------

  /** The first index from `j` on that is not in `used` and holds `d` (the inner loop of api/validate_guess.js:74-80). */
  function FirstFree(c: string, used: set<int>, d: char, j: nat): (r: Option<nat>)
    requires j <= |c|
    ensures r.Some? ==> j <= r.value < |c| && r.value !in used && c[r.value] == d
    decreases |c| - j
  {
    if j == |c| then None
    else if j !in used && c[j] == d then Some(j)
    else FirstFree(c, used, d, j + 1)
  }

  /** No free index holding `d` comes before the one found, and none at all when nothing is found. */
  lemma {:induction false} FirstFreeIsFirst(c: string, used: set<int>, d: char, j: nat)
    requires j <= |c|
    ensures FirstFree(c, used, d, j).Some? ==>
      forall k :: j <= k < FirstFree(c, used, d, j).value ==> k in used || c[k] != d
    ensures FirstFree(c, used, d, j).None? ==> forall k :: j <= k < |c| ==> k in used || c[k] != d
    decreases |c| - j
  {
    if j < |c| && !(j !in used && c[j] == d) {
      FirstFreeIsFirst(c, used, d, j + 1);
    }
  }

  /** What the second pass has counted, and the index set, after guess indices below `n`. */
  datatype PassState = PassState(count: nat, used: set<int>)

  /** The second pass of api/validate_guess.js:71-82 over guess indices below `n`, starting from the exact hits. */
  function SharedPass(g: string, c: string, n: nat): (r: PassState)
    requires |g| == |c| && n <= |g|
    ensures ExactSet(g, c, |g|) <= r.used
    ensures forall j :: j in r.used ==> 0 <= j < |c|
  {
    if n == 0 then PassState(0, ExactSet(g, c, |g|))
    else
      var prev := SharedPass(g, c, n - 1);
      if n - 1 in prev.used then prev
      else match FirstFree(c, prev.used, g[n - 1], 0)
        case None => prev
        case Some(j) => PassState(prev.count + 1, prev.used + {j})
  }

  /** A guess index not yet in the set that finds a free code index adds it and one credit. */
  lemma SharedPassClaims(g: string, c: string, n: nat, prev: PassState, d: char, j: nat)
    requires |g| == |c| && 0 < n <= |g|
    requires SharedPass(g, c, n - 1) == prev && n - 1 !in prev.used
    requires g[n - 1] == d && FirstFree(c, prev.used, d, 0) == Some(j)
    ensures SharedPass(g, c, n) == PassState(prev.count + 1, prev.used + {j})
  {
  }

  /** A guess index already in the set changes nothing. */
  lemma SharedPassSkips(g: string, c: string, n: nat, prev: PassState)
    requires |g| == |c| && 0 < n <= |g|
    requires SharedPass(g, c, n - 1) == prev && n - 1 in prev.used
    ensures SharedPass(g, c, n) == prev
  {
  }

  /** The as-written pass never credits more than the misplaced digits there are. */
  lemma {:induction false} SharedPassAtMostMisplaced(g: string, c: string, n: nat)
    requires |g| == |c| && n <= |g|
    ensures SharedPass(g, c, n).count <= MisplacedCount(g, c, n)
  {
    if n > 0 {
      SharedPassAtMostMisplaced(g, c, n - 1);
      var prev := SharedPass(g, c, n - 1);
      if n - 1 !in prev.used {
        assert g[n - 1] != c[n - 1];
        match FirstFree(c, prev.used, g[n - 1], 0)
        case None =>
        case Some(j) =>
          assert c[j] == g[n - 1];
      }
    }
  }

  /** When the guess is the code, pass 1 uses every index and pass 2 credits nothing. */
  lemma {:induction false} SharedPassOnEqual(g: string, n: nat)
    requires n <= |g|
    ensures SharedPass(g, g, n) == PassState(0, ExactSet(g, g, |g|))
  {
    if n > 0 {
      SharedPassOnEqual(g, n - 1);
    }
  }

  /** The first pass of api/validate_guess.js:63-69: the number of exact hits and the set of their indices. */
  method ExactPass(guess: string, code: string) returns (correctPosition: nat, exact: set<int>)
    requires |guess| == CodeLength && |code| == CodeLength
    ensures correctPosition == ExactCount(guess, code, CodeLength)
    ensures exact == ExactSet(guess, code, CodeLength)
  {
    correctPosition, exact := 0, {};
    var i := 0;
    while i < 5
      invariant 0 <= i <= 5
      invariant correctPosition == ExactCount(guess, code, i)
      invariant exact == ExactSet(guess, code, i)
    {
      if guess[i] == code[i] {
        correctPosition := correctPosition + 1;
        exact := exact + {i};
      }
      i := i + 1;
    }
  }

  /**
   * Scoring as api/validate_guess.js:58-84 does it, with the single
   * `usedIndices` set consulted for guess indices at line 73 and for code
   * indices at line 75.
   */
  method ScoreAsWritten(guess: string, code: string) returns (s: Score)
    requires |guess| == CodeLength && |code| == CodeLength
    ensures s.correctPosition == ExactCount(guess, code, CodeLength)
    ensures s.correctDigit == SharedPass(guess, code, CodeLength).count
    ensures s.correctPosition + s.correctDigit <= CodeLength
    ensures s.isCorrect <==> s.correctPosition == CodeLength
    ensures s.isCorrect <==> guess == code
  {
    var correctPosition, usedIndices := ExactPass(guess, code);
    var correctDigit := 0;
    var i := 0;
    while i < 5
      invariant 0 <= i <= 5
      invariant PassState(correctDigit, usedIndices) == SharedPass(guess, code, i)
    {
      if i !in usedIndices {
        var j := 0;
        while j < 5
          invariant 0 <= j <= 5
          invariant PassState(correctDigit, usedIndices) == SharedPass(guess, code, i)
          invariant FirstFree(code, usedIndices, guess[i], 0) == FirstFree(code, usedIndices, guess[i], j)
        {
          if j !in usedIndices && guess[i] == code[j] {
            correctDigit := correctDigit + 1;
            usedIndices := usedIndices + {j};
            break;
          }
          j := j + 1;
        }
      }
      i := i + 1;
    }
    SharedPassAtMostMisplaced(guess, code, 5);
    ExactAndMisplacedFit(guess, code, 5);
    ExactCountFull(guess, code, 5);
    assert guess[..5] == guess && code[..5] == code;
    s := Score(correctPosition, correctDigit, correctPosition == 5);
  }

  /** The guess equal to the code scores (5, 0, true) as written. */
  lemma AsWrittenOnEqual(g: string)
    requires |g| == CodeLength
    ensures ExactCount(g, g, CodeLength) == CodeLength
    ensures SharedPass(g, g, CodeLength).count == 0
  {
    ExactCountFull(g, g, CodeLength);
    SharedPassOnEqual(g, CodeLength);
  }

  /** Guess 54321 against code 12345 has one exact hit, at index 2, and four misplaced digits. */
  lemma ScoreOf54321()
    ensures ExactSet("54321", "12345", CodeLength) == {2}
    ensures ExactCount("54321", "12345", CodeLength) == 1
    ensures MisplacedCount("54321", "12345", CodeLength) == 4
  {
    var g, c := "54321", "12345";
    assert forall i :: 0 <= i < 5 ==> (g[i] == c[i] <==> i == 2);
  }

  /** As written, the same guess gets credit for only two misplaced digits, not four. */
  lemma SharedPassUndercounts()
    ensures SharedPass("54321", "12345", CodeLength).count == 2
    ensures MisplacedCount("54321", "12345", CodeLength) == 4
  {
    var g, c := "54321", "12345";
    ScoreOf54321();
    assert SharedPass(g, c, 0) == PassState(0, {2});
    assert FirstFree(c, {2}, '5', 0) == Some(4);
    assert SharedPass(g, c, 1) == PassState(1, {2, 4});
    assert FirstFree(c, {2, 4}, '4', 0) == Some(3);
    assert SharedPass(g, c, 2) == PassState(2, {2, 3, 4});
    assert SharedPass(g, c, 3) == PassState(2, {2, 3, 4});
    assert SharedPass(g, c, 4) == PassState(2, {2, 3, 4});
  }

  /** Guess 29703 against code 92307 has one exact hit, at index 3, and four misplaced digits. */
  lemma ScoreOf29703()
    ensures ExactSet("29703", "92307", CodeLength) == {3}
    ensures ExactCount("29703", "92307", CodeLength) == 1
    ensures MisplacedCount("29703", "92307", CodeLength) == 4
  {
    var g, c := "29703", "92307";
    assert forall i :: 0 <= i < 5 ==> (g[i] == c[i] <==> i == 3);
  }

  /** The first two guess indices of 29703 against 92307: guess index 1 is skipped because code index 1 was consumed. */
  lemma SharedPassOf29703Head()
    ensures SharedPass("29703", "92307", 2) == PassState(1, {1, 3})
  {
    var g, c := "29703", "92307";
    ScoreOf29703();
    assert SharedPass(g, c, 0) == PassState(0, {3});
    assert FirstFree(c, {3}, '2', 0) == Some(1);
    assert SharedPass(g, c, 1) == PassState(1, {1, 3});
  }

  /** The scan for guess digit '7' in 92307 with indices 1 and 3 taken finds index 4. */
  lemma FirstFreeOf7In92307()
    ensures FirstFree("92307", {1, 3}, '7', 0) == Some(4)
  {
    var c := "92307";
    assert FirstFree(c, {1, 3}, '7', 4) == Some(4);
    assert FirstFree(c, {1, 3}, '7', 2) == FirstFree(c, {1, 3}, '7', 4);
  }

  /**
   * The step at guess index 2 of the 29703 example, for any strings with the
   * facts it needs (stated on parameters, so the strings are not evaluated).
   */
  lemma ClaimAtIndex2(g: string, c: string)
    requires |g| == |c| == CodeLength
    requires SharedPass(g, c, 2) == PassState(1, {1, 3})
    requires g[2] == '7' && FirstFree(c, {1, 3}, '7', 0) == Some(4)
    ensures SharedPass(g, c, 3) == PassState(2, {1, 3} + {4})
  {
    SharedPassClaims(g, c, 3, PassState(1, {1, 3}), '7', 4);
  }

  /** Guess index 2 of 29703 claims code index 4. */
  lemma SharedPassOf29703Third()
    ensures SharedPass("29703", "92307", 3) == PassState(2, {1, 3} + {4})
  {
    SharedPassOf29703Head();
    FirstFreeOf7In92307();
    assert "29703"[2] == '7';
    ClaimAtIndex2("29703", "92307");
  }

  /** On 2024-01-15 (code 92307, see CodeOn20240115) the guess 29703 is credited two misplaced digits, not four. */
  lemma SharedPassUndercountsOn20240115()
    ensures SharedPass("29703", "92307", CodeLength).count == 2
    ensures MisplacedCount("29703", "92307", CodeLength) == 4
  {
    var g, c := "29703", "92307";
    ScoreOf29703();
    SharedPassOf29703Third();
    SharedPassSkips(g, c, 4, PassState(2, {1, 3} + {4}));
    SharedPassSkips(g, c, 5, PassState(2, {1, 3} + {4}));
  }

  // ---------------------------------------------------------------------
  // The scorer with the guess-side and code-side index sets kept apart.
  // ---------------------------------------------------------------------

  /**
   * With no repeated digits, the code indices consumed after guess indices
   * below `i` are the exact hits and those holding a digit of the guess
   * before `i`.
   */
  ghost predicate ConsumedSoFar(g: string, c: string, consumed: set<int>, i: nat)
    requires |g| == CodeLength && |c| == CodeLength && i <= CodeLength
  {
    forall k :: 0 <= k < CodeLength ==> (k in consumed <==> g[k] == c[k] || c[k] in g[..i])
  }

  /** Pairing a misplaced guess digit with the code index holding it. */
  lemma ClaimStep(g: string, c: string, i: nat, consumed: set<int>, at: nat)
    requires |g| == CodeLength && |c| == CodeLength && i < CodeLength && at < CodeLength
    requires NoDuplicates(g) && NoDuplicates(c)
    requires ConsumedSoFar(g, c, consumed, i)
    requires g[i] != c[i] && c[at] == g[i]
    ensures ConsumedSoFar(g, c, consumed + {at}, i + 1)
    ensures MisplacedCount(g, c, i + 1) == MisplacedCount(g, c, i) + 1
  {
    assert g[..i + 1] == g[..i] + [g[i]];
    assert forall k :: 0 <= k < CodeLength && c[k] == g[i] ==> k == at;
  }

  /** A guess digit that no free code index holds is an exact hit or absent from the code. */
  lemma NoClaimStep(g: string, c: string, i: nat, consumed: set<int>)
    requires |g| == CodeLength && |c| == CodeLength && i < CodeLength
    requires NoDuplicates(g) && NoDuplicates(c)
    requires ConsumedSoFar(g, c, consumed, i)
    requires g[i] == c[i] || forall k :: 0 <= k < CodeLength ==> k in consumed || c[k] != g[i]
    ensures ConsumedSoFar(g, c, consumed, i + 1)
    ensures MisplacedCount(g, c, i + 1) == MisplacedCount(g, c, i)
  {
    assert g[..i + 1] == g[..i] + [g[i]];
    if g[i] == c[i] {
      assert forall k :: 0 <= k < CodeLength && c[k] == g[i] ==> k == i;
    } else {
      assert g[i] !in c;
    }
  }

  /**
   * Scoring with the intended two sets: `exact` holds the guess indices
   * matched in the first pass, and only those are skipped in the second;
   * `consumed` holds the code indices already paired. For a guess and a
   * code without repeated digits, the second pass counts every misplaced digit.
   */
  method ScoreGuess(guess: string, code: string) returns (s: Score)
    requires |guess| == CodeLength && |code| == CodeLength
    ensures s.correctPosition == ExactCount(guess, code, CodeLength)
    ensures s.correctPosition + s.correctDigit <= CodeLength
    ensures s.isCorrect <==> s.correctPosition == CodeLength
    ensures s.isCorrect <==> guess == code
    ensures NoDuplicates(guess) && NoDuplicates(code) ==>
      s.correctDigit == MisplacedCount(guess, code, CodeLength)
  {
    ghost var distinct := NoDuplicates(guess) && NoDuplicates(code);
    var correctPosition, exact := ExactPass(guess, code);
    var correctDigit := 0;
    var consumed := exact;
    var i := 0;
    assert distinct ==> ConsumedSoFar(guess, code, consumed, 0);
    while i < 5
      invariant 0 <= i <= 5
      invariant exact == ExactSet(guess, code, 5)
      invariant correctDigit <= i - ExactCount(guess, code, i)
      invariant distinct ==> correctDigit == MisplacedCount(guess, code, i)
      invariant distinct ==> ConsumedSoFar(guess, code, consumed, i)
    {
      ghost var before, counted := consumed, correctDigit;
      ghost var found, at := false, 0;
      if i !in exact {
        var j := 0;
        while j < 5
          invariant 0 <= j <= 5
          invariant consumed == before && correctDigit == counted
          invariant forall k :: 0 <= k < j ==> k in consumed || code[k] != guess[i]
        {
          if j !in consumed && guess[i] == code[j] {
            correctDigit := correctDigit + 1;
            consumed := consumed + {j};
            found, at := true, j;
            break;
          }
          j := j + 1;
        }
        if distinct && found {
          ClaimStep(guess, code, i, before, at);
        } else if distinct {
          NoClaimStep(guess, code, i, before);
        }
      } else if distinct {
        NoClaimStep(guess, code, i, before);
      }
      i := i + 1;
    }
    ExactAndMisplacedFit(guess, code, 5);
    ExactCountFull(guess, code, 5);
    assert guess[..5] == guess && code[..5] == code;
    s := Score(correctPosition, correctDigit, correctPosition == 5);
  }

  /** The daily-code endpoint and the guess endpoint derive the same code for the same day, so its own code wins. */
  lemma ServedCodeWins(today: UtcDate, served: string, scored: string)
    requires ValidDate(today)
    requires IsDailyCode(DateSeed(today), served) && IsDailyCode(DateSeed(today), scored)
    requires |served| == CodeLength
    ensures served == scored
    ensures ExactCount(served, scored, CodeLength) == CodeLength
  {
    DailyCodeIsUnique(DateSeed(today), served, scored);
    ExactCountFull(served, scored, CodeLength);
  }

  /** The two 400 answers of api/validate_guess.js:42-49. */
  datatype GuessError = InvalidFormat | RepeatedDigit

  /** A guess that passes both checks of api/validate_guess.js:42-49 and is scored. */
  predicate Scorable(guess: Option<string>)
  {
    guess.Some? && IsFiveDigits(guess.value) && NoDuplicates(guess.value)
  }

  /**
   * handler of api/validate_guess.js:19-95 on a request made on day
   * `today`; `guess` is the body's `guess` field, absent when the body has
   * none. The guess is scored as written, with the shared index set.
   */
  method HandleGuess(httpMethod: string, guess: Option<string>, today: UtcDate, fuel: nat)
    returns (reply: Response<Score, GuessError>)
    requires ValidDate(today)
    ensures httpMethod == "OPTIONS" ==> reply == Preflight
    ensures httpMethod != "OPTIONS" && httpMethod != "POST" ==> reply == MethodNotAllowed("POST")
    ensures httpMethod == "POST" && !(guess.Some? && IsFiveDigits(guess.value)) ==> reply == BadRequest(InvalidFormat)
    ensures httpMethod == "POST" && guess.Some? && IsFiveDigits(guess.value) && !NoDuplicates(guess.value) ==>
      reply == BadRequest(RepeatedDigit)
    ensures httpMethod == "POST" && Scorable(guess) ==> reply.Ok? || reply.Unanswered?
    ensures reply.Ok? ==>
      httpMethod == "POST" && Scorable(guess) &&
      exists code :: IsDailyCode(DateSeed(today), code) &&
        reply.body == Score(ExactCount(guess.value, code, CodeLength),
          SharedPass(guess.value, code, CodeLength).count, guess.value == code)
    ensures reply.Unanswered? <==>
      httpMethod == "POST" && Scorable(guess) && forall n: nat :: n <= fuel ==> Collected(DateSeed(today), n) < 5
  {
    if httpMethod == "OPTIONS" {
      return Preflight;
    }
    if httpMethod != "POST" {
      return MethodNotAllowed("POST");
    }
    if guess.None? || !IsFiveDigits(guess.value) {
      return BadRequest(InvalidFormat);
    }
    var g := guess.value;
    DistinctCharsCountsRepeats(g);
    if DistinctChars(g) != 5 {
      return BadRequest(RepeatedDigit);
    }
    var code := GenerateDailyCode(DateSeed(today), fuel);
    if code.None? {
      return Unanswered;
    }
    var score := ScoreAsWritten(g, code.value);
    return Ok(score);
  }
}
