/** What the share-URL codec and the result id promise: the shape of an
    encoding, the shape of any decoding, the round trip for a completed quiz,
    and the hash as the 32-bit polynomial string hash. */
module CodecProperties {
  import opened JsRuntime
  import opened Questions
  import opened Codec

  // ---------------------------------------------------------------------
  // Chunk counts
  // ---------------------------------------------------------------------

  /** Chunks of three are the ceiling of n / 3. */
  lemma {:induction false} ChunksOfThree(n: nat)
    ensures Chunks(n, 3) == (n + 2) / 3
    decreases n
  {
    if n > 3 {
      ChunksOfThree(n - 3);
    } else if n > 0 {
      assert Chunks(n - 3, 3) == 0;
    }
  }

  /** Chunks of two are the ceiling of n / 2. */
  lemma {:induction false} ChunksOfTwo(n: nat)
    ensures Chunks(n, 2) == (n + 1) / 2
    decreases n
  {
    if n > 2 {
      ChunksOfTwo(n - 2);
    } else if n > 0 {
      assert Chunks(n - 2, 2) == 0;
    }
  }

  // ---------------------------------------------------------------------
  // Keys 1..n come out in order
  // ---------------------------------------------------------------------

  lemma {:induction false} RangeSize(n: nat)
    ensures |Range(n)| == n
  {
    if n > 0 {
      RangeSize(n - 1);
      var front := Range(n - 1);
      assert n !in front;
      assert Range(n) == front + {n};
      assert |front + {n}| == |front| + 1;
    }
  }

  /** In a strictly increasing sequence whose elements are at least lo, the
      element at i is at least lo + i. */
  lemma {:induction false} IncreasingFloor(r: seq<int>, lo: int, i: nat)
    requires forall a, b :: 0 <= a < b < |r| ==> r[a] < r[b]
    requires i < |r| && lo <= r[0]
    ensures lo + i <= r[i]
  {
    if i > 0 {
      IncreasingFloor(r, lo, i - 1);
      assert r[i - 1] < r[i];
    }
  }

  /** In a strictly increasing sequence whose elements are at most hi, the
      element at i leaves room for the ones after it. */
  lemma {:induction false} IncreasingCeiling(r: seq<int>, hi: int, i: nat)
    requires forall a, b :: 0 <= a < b < |r| ==> r[a] < r[b]
    requires i < |r| && r[|r| - 1] <= hi
    ensures r[i] <= hi - (|r| - 1 - i)
    decreases |r| - i
  {
    if i < |r| - 1 {
      IncreasingCeiling(r, hi, i + 1);
      assert r[i] < r[i + 1];
    }
  }

  /** The keys 1..n sort to 1, 2, ..., n. */
  lemma SortedRange(n: nat)
    ensures |SortedKeys(Range(n))| == n
    ensures forall i :: 0 <= i < n ==> SortedKeys(Range(n))[i] == i + 1
  {
    var r := SortedKeys(Range(n));
    RangeSize(n);
    SortedKeysMembers(Range(n));
    SortedKeysIncreasing(Range(n));
    forall i | 0 <= i < n
      ensures r[i] == i + 1
    {
      assert r[0] in Range(n) && r[n - 1] in Range(n);
      IncreasingFloor(r, 1, i);
      IncreasingCeiling(r, n, i);
    }
  }

  /** The digit string of answers to questions 1..n holds answer k's digit
      at index k - 1. */
  lemma TernaryOfRange(answers: Answers, n: nat)
    requires answers.Keys == Range(n)
    ensures |Ternary(answers)| == n
    ensures forall i :: 0 <= i < n ==> Ternary(answers)[i] == TernaryDigit(answers[i + 1])
  {
    RangeSize(n);
    SortedRange(n);
  }

  // ---------------------------------------------------------------------
  // The encoding
  // ---------------------------------------------------------------------

  /** Joining parts of two characters each puts part g at indices 2g and
      2g + 1. */
  lemma {:induction false} ConcatPairs(parts: seq<string>)
    requires forall g :: 0 <= g < |parts| ==> |parts[g]| == 2
    ensures |Concat(parts)| == 2 * |parts|
    ensures forall g :: 0 <= g < |parts| ==> Concat(parts)[2 * g] == parts[g][0] && Concat(parts)[2 * g + 1] == parts[g][1]
  {
    if parts != [] {
      var init := parts[..|parts| - 1];
      ConcatPairs(init);
      forall g | 0 <= g < |parts|
        ensures Concat(parts)[2 * g] == parts[g][0] && Concat(parts)[2 * g + 1] == parts[g][1]
      {
        if g < |init| {
          assert parts[g] == init[g];
        }
      }
    }
  }

  /** Group g of a digit string is two hexadecimal digits spelling chunk
      g's number. */
  lemma GroupsShape(t: string)
    ensures forall g :: 0 <= g < |Groups(t)| ==>
      IsDigitOf(Groups(t)[g][0], 16) && IsDigitOf(Groups(t)[g][1], 16) &&
      DigitValue(Groups(t)[g][0]) * 16 + DigitValue(Groups(t)[g][1]) == ChunkAt(t, 3 * g)
  {
    forall g | 0 <= g < |Groups(t)|
      ensures IsDigitOf(Groups(t)[g][0], 16) && IsDigitOf(Groups(t)[g][1], 16)
      ensures DigitValue(Groups(t)[g][0]) * 16 + DigitValue(Groups(t)[g][1]) == ChunkAt(t, 3 * g)
    {
      GroupDigits(ChunkAt(t, 3 * g));
      FromRadixStringPair(Groups(t)[g], 16);
    }
  }

  /** Joining pairs of hexadecimal digits gives hexadecimal digits, the
      pair g at indices 2g and 2g + 1. */
  lemma ConcatDigits(parts: seq<string>)
    requires forall g :: 0 <= g < |parts| ==> |parts[g]| == 2 && IsDigitOf(parts[g][0], 16) && IsDigitOf(parts[g][1], 16)
    ensures |Concat(parts)| == 2 * |parts|
    ensures forall k :: 0 <= k < |Concat(parts)| ==> IsDigitOf(Concat(parts)[k], 16)
    ensures forall g :: 0 <= g < |parts| ==> Concat(parts)[2 * g] == parts[g][0] && Concat(parts)[2 * g + 1] == parts[g][1]
  {
    ConcatPairs(parts);
    var c := Concat(parts);
    forall k | 0 <= k < |c|
      ensures IsDigitOf(c[k], 16)
    {
      var g := k / 2;
      if k == 2 * g {
        assert c[k] == parts[g][0];
      } else {
        assert c[k] == parts[g][1];
      }
    }
  }

  /** A packed digit string is two hexadecimal digits per chunk, and the
      digits at 2g and 2g + 1 spell chunk g's number. */
  lemma PackShape(t: string)
    ensures |Pack(t)| == 2 * Chunks(|t|, 3)
    ensures forall k :: 0 <= k < |Pack(t)| ==> IsDigitOf(Pack(t)[k], 16)
    ensures forall g :: 0 <= g < Chunks(|t|, 3) ==>
      DigitValue(Pack(t)[2 * g]) * 16 + DigitValue(Pack(t)[2 * g + 1]) == ChunkAt(t, 3 * g)
  {
    GroupsShape(t);
    ConcatDigits(Groups(t));
  }

  /** N answers encode to 2 * ceil(N / 3) characters. */
  lemma EncodingLength(answers: Answers)
    ensures |Encoding(answers)| == 2 * Chunks(|answers|, 3)
    ensures |Encoding(answers)| == 2 * ((|answers| + 2) / 3)
  {
    PackShape(Ternary(answers));
    ChunksOfThree(|answers|);
  }

  /** Every character of an encoding is a hexadecimal digit, and each group
      of two spells a number no larger than 26, the value of three base-3
      digits. */
  lemma EncodingGroups(answers: Answers)
    ensures var e := Encoding(answers);
      forall k :: 0 <= k < |e| ==> IsDigitOf(e[k], 16)
    ensures var e := Encoding(answers);
      forall k :: 0 <= k < |e| && k % 2 == 0 ==> k + 1 < |e| && DigitValue(e[k]) * 16 + DigitValue(e[k + 1]) <= 26
  {
    var t := Ternary(answers);
    var e := Pack(t);
    PackShape(t);
    forall k | 0 <= k < |e| && k % 2 == 0
      ensures k + 1 < |e| && DigitValue(e[k]) * 16 + DigitValue(e[k + 1]) <= 26
    {
      var g := k / 2;
      assert k == 2 * g;
      assert g < Chunks(|t|, 3);
    }
  }

  /** An answer value other than a, b or c encodes as if it were 'a'. */
  lemma ForeignLetterEncodesAsA(answers: Answers, k: int, x: string)
    requires k in answers && x != "a" && x != "b" && x != "c"
    ensures Encoding(answers[k := x]) == Encoding(answers[k := "a"])
  {
    var a1, a2 := answers[k := x], answers[k := "a"];
    assert a1.Keys == a2.Keys;
    var keys := SortedKeys(a1.Keys);
    assert forall i :: 0 <= i < |keys| ==> TernaryDigit(a1[keys[i]]) == TernaryDigit(a2[keys[i]]);
    assert Ternary(a1) == Ternary(a2);
  }

  // ---------------------------------------------------------------------
  // Any decoding
  // ---------------------------------------------------------------------

  /** Every letter the decoder produces is a, b or c. */
  lemma {:induction false} LettersAreLetters(nums: seq<IntOrNaN>)
    ensures forall k :: 0 <= k < |LettersOf(nums)| ==> IsLetter(LettersOf(nums)[k])
  {
    if nums != [] {
      var front, last := LettersOf(nums[..|nums| - 1]), ChunkLetters(nums[|nums| - 1]);
      LettersAreLetters(nums[..|nums| - 1]);
      assert forall k :: 0 <= k < |front + last| ==> (front + last)[k] == if k < |front| then front[k] else last[k - |front|];
    }
  }

  /** Any string decodes to answers for questions 1..min(15, 3 * ceil(L / 2)),
      L its length in UTF-16 code units, each answer a, b or c. */
  lemma DecodeShape(encoded: string)
    ensures var units := CodeUnits(encoded);
      Decoding(encoded).Keys == Range(Min(15, 3 * ((|units| + 1) / 2)))
    ensures forall k :: k in Decoding(encoded) ==> IsLetter(Decoding(encoded)[k])
  {
    var units := CodeUnits(encoded);
    ChunksOfTwo(|units|);
    LettersAreLetters(ChunkNumbers(units));
  }

  /** A chunk that is not hexadecimal decodes as three c's. */
  lemma DecodeNonHex()
    ensures Decoding("zz") == map[1 := "c", 2 := "c", 3 := "c"]
  {
    var units := CodeUnits("zz");
    assert units == [122, 122] by {
      CodeUnitsBmp("zz");
    }
    var nums := ChunkNumbers(units);
    assert nums == [NaN] by {
      assert Chunks(2, 2) == 1;
      assert Slice(units, 0, 2) == units;
      assert TrimStart(units) == units;
      assert HexDigitPrefix(units) == [];
    }
    assert LettersOf(nums) == ["c", "c", "c"] by {
      assert nums[..0] == [];
    }
    assert Decoding("zz").Keys == {1, 2, 3};
  }

  // ---------------------------------------------------------------------
  // The round trip
  // ---------------------------------------------------------------------

  /** The letter a base-3 digit written by the encoder stands for. */
  function TritLetter(c: char): string
  {
    if c == '1' then "b" else if c == '2' then "c" else "a"
  }

  /** Reading a letter's digit back gives the letter. */
  lemma TritLetterOfDigit(x: string)
    requires IsLetter(x)
    ensures TritLetter(TernaryDigit(x)) == x
  {
  }

  /** The three digits of a chunk come back out of its number as their
      letters. */
  lemma ChunkDigits(chunk: string)
    requires |chunk| == 3 && AllTrits(chunk)
    ensures ChunkLetters(Finite(ChunkValue(chunk))) == [TritLetter(chunk[0]), TritLetter(chunk[1]), TritLetter(chunk[2])]
  {
    var a, b, c := TritValue(chunk[0]), TritValue(chunk[1]), TritValue(chunk[2]);
    var v := ChunkValue(chunk);
    assert v == 9 * a + 3 * b + c;
    assert FloorDiv(v, 9) == a;
    assert JsRem(v, 9) == 3 * b + c;
    assert FloorDiv(JsRem(v, 9), 3) == b;
    assert JsRem(v, 3) == c;
  }

  /** A group is two code units that parse back to its number. */
  lemma GroupParses(num: nat)
    requires num <= 26
    ensures |CodeUnits(Group(num))| == 2
    ensures ParseIntHex(CodeUnits(Group(num))) == Finite(num)
  {
    var g := Group(num);
    GroupDigits(num);
    ParseIntHexTwoDigits(g);
    CodeUnitsBmp(g);
  }

  /** The padded chunk at i holds the digits of t from i on, then '0'. */
  lemma ChunkChars(t: string, i: nat)
    requires i < |t|
    ensures var chunk := PadEnd(Slice(t, i, 3), 3, '0');
      |chunk| == 3 && forall j :: 0 <= j < 3 ==> chunk[j] == if i + j < |t| then t[i + j] else '0'
  {
    PadEndShape(Slice(t, i, 3), 3, '0');
    SliceContents(t, i, 3);
  }

  /** The letter of digit j of t, or 'a' for a padding digit past its end. */
  function LetterAt(t: string, j: nat): string
  {
    if j < |t| then TritLetter(t[j]) else "a"
  }

  /** The letters of one encoded chunk are the letters of its digits. */
  lemma ChunkRoundTrip(t: string, i: nat)
    requires AllTrits(t) && i < |t|
    ensures ChunkLetters(Finite(ChunkAt(t, i))) == [LetterAt(t, i), LetterAt(t, i + 1), LetterAt(t, i + 2)]
  {
    ChunkChars(t, i);
    ChunkDigits(PadEnd(Slice(t, i, 3), 3, '0'));
  }

  /** The two code units at `at` of units that match a string character
      for character are the units of the two characters there. */
  lemma SliceUnits(u: seq<int>, p: string, at: nat)
    requires at + 2 <= |p| && |u| == |p|
    requires forall i :: 0 <= i < |p| ==> u[i] == p[i] as int
    requires p[at] as int < 0x1_0000 && p[at + 1] as int < 0x1_0000
    ensures Slice(u, at, 2) == CodeUnits([p[at], p[at + 1]])
  {
    assert Slice(u, at, 2) == [u[at], u[at + 1]];
  }

  /** Two hexadecimal digits parse, as code units, to the number they
      spell. */
  lemma PairValue(pair: string)
    requires |pair| == 2 && IsDigitOf(pair[0], 16) && IsDigitOf(pair[1], 16)
    ensures ParseIntHex(CodeUnits(pair)) == Finite(DigitValue(pair[0]) * 16 + DigitValue(pair[1]))
  {
    ParseIntHexTwoDigits(pair);
    FromRadixStringPair(pair, 16);
  }

  /** A string of 2n hexadecimal digits reads as n numbers, number g
      spelled by the digits at 2g and 2g + 1. */
  lemma ParsePairs(p: string, n: nat)
    requires |p| == 2 * n && forall k :: 0 <= k < |p| ==> IsDigitOf(p[k], 16)
    ensures |ChunkNumbers(CodeUnits(p))| == n
    ensures forall g :: 0 <= g < n ==>
      ChunkNumbers(CodeUnits(p))[g] == Finite(DigitValue(p[2 * g]) * 16 + DigitValue(p[2 * g + 1]))
  {
    assert IsBmp(p);
    CodeUnitsBmp(p);
    ChunksOfTwo(2 * n);
    forall g | 0 <= g < n
      ensures ChunkNumbers(CodeUnits(p))[g] == Finite(DigitValue(p[2 * g]) * 16 + DigitValue(p[2 * g + 1]))
    {
      SliceUnits(CodeUnits(p), p, 2 * g);
      PairValue([p[2 * g], p[2 * g + 1]]);
    }
  }

  /** The numbers the decoder reads from an encoding are the chunk numbers
      the encoder wrote. */
  lemma PackNumbers(t: string)
    ensures var nums := ChunkNumbers(CodeUnits(Pack(t)));
      |nums| == Chunks(|t|, 3) && forall g :: 0 <= g < |nums| ==> nums[g] == Finite(ChunkAt(t, 3 * g))
  {
    PackShape(t);
    ParsePairs(Pack(t), Chunks(|t|, 3));
  }

  /** The letters of all digits of t, padded with 'a' to whole chunks of
      three. */
  function PaddedLetters(t: string, n: nat): (r: seq<string>)
    ensures |r| == 3 * n
  {
    seq(3 * n, k requires 0 <= k => LetterAt(t, k))
  }

  /** Lettering numbers each of which spells the next three of the given
      letters gives those letters. */
  lemma LettersOfSpelled(nums: seq<IntOrNaN>, letters: seq<string>)
    requires |letters| == 3 * |nums|
    requires forall g :: 0 <= g < |nums| ==> ChunkLetters(nums[g]) == [letters[3 * g], letters[3 * g + 1], letters[3 * g + 2]]
    ensures LettersOf(nums) == letters
  {
    LettersOfPrefix(nums, letters, |nums|);
    assert nums[..|nums|] == nums;
    assert letters[..3 * |nums|] == letters;
  }

  /** The first m numbers spell the first 3m letters. */
  lemma {:induction false} LettersOfPrefix(nums: seq<IntOrNaN>, letters: seq<string>, m: nat)
    requires |letters| == 3 * |nums| && m <= |nums|
    requires forall g :: 0 <= g < |nums| ==> ChunkLetters(nums[g]) == [letters[3 * g], letters[3 * g + 1], letters[3 * g + 2]]
    ensures LettersOf(nums[..m]) == letters[..3 * m]
  {
    if m > 0 {
      LettersOfPrefix(nums, letters, m - 1);
      LettersStep(nums, m - 1);
      TakeThree(letters, 3 * (m - 1));
    }
  }

  /** Three more elements of a prefix. */
  lemma TakeThree(s: seq<string>, k: nat)
    requires k + 3 <= |s|
    ensures s[..k + 3] == s[..k] + [s[k], s[k + 1], s[k + 2]]
  {
  }

  /** The numbers of the chunks of a digit string spell the letters of its
      digits, 'a' past its end. */
  lemma ChunkNumbersSpell(t: string, nums: seq<IntOrNaN>)
    requires AllTrits(t)
    requires forall g :: 0 <= g < |nums| ==> 3 * g < |t| && nums[g] == Finite(ChunkAt(t, 3 * g))
    ensures forall g :: 0 <= g < |nums| ==>
      ChunkLetters(nums[g]) == [LetterAt(t, 3 * g), LetterAt(t, 3 * g + 1), LetterAt(t, 3 * g + 2)]
  {
    forall g | 0 <= g < |nums|
      ensures ChunkLetters(nums[g]) == [LetterAt(t, 3 * g), LetterAt(t, 3 * g + 1), LetterAt(t, 3 * g + 2)]
    {
      SpellAt(t, g, nums[g]);
    }
  }

  /** The number of chunk g spells the letters of digits 3g to 3g + 2. */
  lemma SpellAt(t: string, g: nat, num: IntOrNaN)
    requires AllTrits(t) && 3 * g < |t| && num == Finite(ChunkAt(t, 3 * g))
    ensures ChunkLetters(num) == [LetterAt(t, 3 * g), LetterAt(t, 3 * g + 1), LetterAt(t, 3 * g + 2)]
  {
    ChunkRoundTrip(t, 3 * g);
  }

  /** The letters the decoder reads from a packed digit string are its
      digits' letters, padded with 'a' to whole chunks. */
  lemma PackLetters(t: string)
    requires AllTrits(t)
    ensures LettersOf(ChunkNumbers(CodeUnits(Pack(t)))) == PaddedLetters(t, Chunks(|t|, 3))
  {
    PackNumbers(t);
    ChunkStarts(t);
    NumbersSpellPadded(t, ChunkNumbers(CodeUnits(Pack(t))));
  }

  /** Every chunk starts inside the digit string. */
  lemma ChunkStarts(t: string)
    ensures forall g :: 0 <= g < Chunks(|t|, 3) ==> 3 * g < |t|
  {
    forall g | 0 <= g < Chunks(|t|, 3)
      ensures 3 * g < |t|
    {
      ChunkIndex(|t|, 3, g);
    }
  }

  /** Lettering the chunk numbers of a digit string gives its padded
      letters. */
  lemma NumbersSpellPadded(t: string, nums: seq<IntOrNaN>)
    requires AllTrits(t)
    requires forall g :: 0 <= g < |nums| ==> 3 * g < |t| && nums[g] == Finite(ChunkAt(t, 3 * g))
    ensures LettersOf(nums) == PaddedLetters(t, |nums|)
  {
    var padded := PaddedLetters(t, |nums|);
    ChunkNumbersSpell(t, nums);
    forall g | 0 <= g < |nums|
      ensures ChunkLetters(nums[g]) == [padded[3 * g], padded[3 * g + 1], padded[3 * g + 2]]
    {
      PaddedAt(t, |nums|, g);
    }
    LettersOfSpelled(nums, padded);
  }

  /** The padded letters of chunk g are the letters of digits 3g to 3g + 2. */
  lemma PaddedAt(t: string, n: nat, g: nat)
    requires g < n
    ensures [PaddedLetters(t, n)[3 * g], PaddedLetters(t, n)[3 * g + 1], PaddedLetters(t, n)[3 * g + 2]] ==
      [LetterAt(t, 3 * g), LetterAt(t, 3 * g + 1), LetterAt(t, 3 * g + 2)]
  {
  }

  /** Slots over the padded letters of the digits of answers to questions
      1..n give those answers back, then 'a' up to the end of the last
      chunk, at most 15 in all. */
  lemma PaddedAnswers(answers: Answers, n: nat, t: string)
    requires answers.Keys == Range(n)
    requires forall k :: k in answers ==> IsLetter(answers[k])
    requires |t| == n && forall i :: 0 <= i < n ==> t[i] == TernaryDigit(answers[i + 1])
    ensures var d := Slots(PaddedLetters(t, (n + 2) / 3));
      d.Keys == Range(Min(15, 3 * ((n + 2) / 3))) &&
      (forall k :: 1 <= k <= Min(15, n) ==> d[k] == answers[k]) &&
      (forall k :: k in d && k > n ==> d[k] == "a")
  {
    var d := Slots(PaddedLetters(t, (n + 2) / 3));
    SlotsOfPadded(t, (n + 2) / 3);
    forall k | k in d
      ensures d[k] == if k <= n then answers[k] else "a"
    {
      if k <= n {
        TritLetterOfDigit(answers[k]);
      }
    }
  }

  /** Answers a, b or c to questions 1..n come back from the share URL;
      the padding of the last chunk adds 'a' answers up to the next multiple
      of three, and nothing past question 15 is kept. */
  lemma RoundTrip(answers: Answers, n: nat)
    requires answers.Keys == Range(n)
    requires forall k :: k in answers ==> IsLetter(answers[k])
    ensures Decoding(Encoding(answers)).Keys == Range(Min(15, 3 * ((n + 2) / 3)))
    ensures forall k :: 1 <= k <= Min(15, n) ==> Decoding(Encoding(answers))[k] == answers[k]
    ensures forall k :: k in Decoding(Encoding(answers)) && k > n ==> Decoding(Encoding(answers))[k] == "a"
  {
    var t := Ternary(answers);
    TernaryOfRange(answers, n);
    PackLetters(t);
    ChunksOfThree(n);
    PaddedAnswers(answers, n, t);
  }

  /** Slot k of the padded letters holds the letter of digit k - 1. */
  lemma SlotsOfPadded(t: string, m: nat)
    ensures forall k :: k in Slots(PaddedLetters(t, m)) ==> Slots(PaddedLetters(t, m))[k] == LetterAt(t, k - 1)
  {
  }

  /** Answers that select an option of every question of the bank answer
      exactly questions 1..15, each with a, b or c. */
  lemma CompletedAnswers(answers: Answers)
    requires answers.Keys <= Range(15)
    requires forall i :: 0 <= i < |Bank| ==> Selected(Bank[i], answers).Some?
    ensures answers.Keys == Range(15)
    ensures forall k :: k in answers ==> IsLetter(answers[k])
  {
    BankShape();
    forall k | k in Range(15)
      ensures k in answers
    {
      assert Selected(Bank[k - 1], answers).Some?;
    }
    forall k | k in answers
      ensures IsLetter(answers[k])
    {
      var q := Bank[k - 1];
      var o := Selected(q, answers).value;
      var j :| 0 <= j < |q.options| && q.options[j] == o;
      OptionIdsAreCodecLetters(k - 1, j);
    }
  }

  /** The quiz encodes only once every question has a valid answer; such
      answers come back from the share URL unchanged. */
  lemma QuizRoundTrip(answers: Answers)
    requires answers.Keys <= Range(15)
    requires forall i :: 0 <= i < |Bank| ==> Selected(Bank[i], answers).Some?
    ensures Decoding(Encoding(answers)) == answers
  {
    CompletedAnswers(answers);
    RoundTrip(answers, 15);
    SameAnswers(Decoding(Encoding(answers)), answers);
  }

  /** Two answer maps with the same keys and the same answer at each key
      are equal. */
  lemma SameAnswers(a: Answers, b: Answers)
    requires a.Keys == b.Keys && forall k :: k in a ==> a[k] == b[k]
    ensures a == b
  {
    forall k
      ensures k in a <==> k in b
      ensures k in a ==> a[k] == b[k]
    {
      assert k in a.Keys <==> k in b.Keys;
    }
  }

  // ---------------------------------------------------------------------
  // The result id
  // ---------------------------------------------------------------------

  /** The polynomial string hash over unbounded integers: each code unit
      weighted by 31 to the power of the number of units after it. */
  function Poly(units: seq<int>): int
  {
    if units == [] then 0 else 31 * Poly(units[..|units| - 1]) + units[|units| - 1]
  }

  /** A difference that ToInt32 leaves is a whole number of 2^32 steps. */
  lemma WrapSteps(x: int) returns (q: int)
    ensures x - ToInt32(x) == TwoTo32 * q
  {
    var d := x - ToInt32(x);
    q := d / TwoTo32;
    assert d == TwoTo32 * q + d % TwoTo32;
  }

  /** Values a whole number of 2^32 steps apart wrap to the same int32. */
  lemma SameWrap(x: int, y: int, k: int)
    requires x - y == TwoTo32 * k
    ensures ToInt32(x) == ToInt32(y)
  {
    assert (x - y) % TwoTo32 == 0;
    ToInt32Congruent(x, y);
  }

  /** For a 32-bit hash, one step is 31 * hash + unit wrapped to 32 bits:
      the shift multiplies by 32, and `hash & hash` only wraps. */
  lemma HashStepWraps(hash: int, unit: int)
    requires -TwoTo31 <= hash < TwoTo31
    ensures HashStep(hash, unit) == ToInt32(31 * hash + unit)
  {
    Int32Unique(hash, ToInt32(hash));
    assert Pow2(5) == 32;
    var shifted := ToInt32(32 * hash);
    assert ShiftLeft(hash, 5) == shifted;
    var q := WrapSteps(32 * hash);
    var x := shifted - hash + unit;
    SameWrap(x, 31 * hash + unit, -q);
  }

  /** The loop's hash is the polynomial hash wrapped to 32 bits, the same
      value as Java's `String.hashCode`. */
  lemma {:induction false} HashIsPoly(units: seq<int>)
    ensures HashOf(units) == ToInt32(Poly(units))
  {
    if units == [] {
      assert ToInt32(0) == 0;
    } else {
      var init, last := units[..|units| - 1], units[|units| - 1];
      HashIsPoly(init);
      var p := Poly(init);
      HashStepWraps(HashOf(init), last);
      var q := WrapSteps(p);
      SameWrap(31 * ToInt32(p) + last, 31 * p + last, -31 * q);
    }
  }

  /** A result id is one to six base-36 digits that read back as the
      absolute value of the hash. */
  lemma ResultIdShape(answers: Answers)
    ensures 1 <= |ResultId(answers)| <= 6
    ensures forall i :: 0 <= i < |ResultId(answers)| ==> IsDigitOf(ResultId(answers)[i], 36)
    ensures FromRadixString(ResultId(answers), 36) == Abs(HashOf(CodeUnits(AnswerString(answers))))
  {
    var n := Abs(HashOf(CodeUnits(AnswerString(answers))));
    HashBound(CodeUnits(AnswerString(answers)));
    assert Power(36, 6) == 2176782336;
    ToRadixStringLength(n, 36, 6);
    ToRadixStringDigits(n, 36);
    ToRadixStringRoundTrip(n, 36);
  }

  /** The hash is a 32-bit value, so its absolute value is at most 2^31. */
  lemma HashBound(units: seq<int>)
    ensures Abs(HashOf(units)) <= TwoTo31
  {
    HashIsPoly(units);
  }
}
