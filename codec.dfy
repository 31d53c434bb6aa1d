/** The share-URL codec (`encodeAnswers`/`decodeAnswers`) and the result id
    hash (`generateResultId`). */
module Codec {
  import opened Wrappers
  import opened JsRuntime
  import opened Questions

  // ---------------------------------------------------------------------
  // Answer keys in ascending numeric order
  // ---------------------------------------------------------------------

  predicate IsMin(s: set<int>, m: int)
  {
    m in s && forall x :: x in s ==> m <= x
  }

  /** A finite set of integers has a least element. */
  lemma {:induction false} MinExists(s: set<int>)
    requires s != {}
    ensures exists m :: IsMin(s, m)
    decreases |s|
  {
    if forall x :: x !in s {
      assert false;
    }
    var y :| y in s;
    var rest := s - {y};
    if rest == {} {
      assert s == {y};
      assert IsMin(s, y);
    } else {
      MinExists(rest);
      var m :| IsMin(rest, m);
      var best := if y < m then y else m;
      assert IsMin(s, best) by {
        forall x | x in s
          ensures best <= x
        {
          if x != y {
            assert x in rest;
          }
        }
      }
    }
  }

  function MinOf(s: set<int>): (m: int)
    requires s != {}
    ensures IsMin(s, m)
  {
    MinExists(s);
    var m :| IsMin(s, m);
    m
  }

  /** `Object.keys(answers).map(Number).sort((a, b) => a - b)`. */
  function SortedKeys(s: set<int>): (r: seq<int>)
    ensures |r| == |s|
    ensures forall i :: 0 <= i < |r| ==> r[i] in s
    decreases |s|
  {
    if s == {} then []
    else
      var m := MinOf(s);
      var rest := SortedKeys(s - {m});
      assert forall i :: 0 < i <= |rest| ==> ([m] + rest)[i] == rest[i - 1];
      [m] + rest
  }

  /** The sorted keys are exactly the set's elements. */
  lemma {:induction false} SortedKeysMembers(s: set<int>)
    ensures forall k :: k in SortedKeys(s) <==> k in s
    decreases |s|
  {
    if s != {} {
      var m := MinOf(s);
      SortedKeysMembers(s - {m});
      var rest := SortedKeys(s - {m});
      assert SortedKeys(s) == [m] + rest;
    }
  }

  /** The sorted keys are in strictly increasing order. */
  lemma {:induction false} SortedKeysIncreasing(s: set<int>)
    ensures forall i, j :: 0 <= i < j < |SortedKeys(s)| ==> SortedKeys(s)[i] < SortedKeys(s)[j]
    decreases |s|
  {
    if s != {} {
      var m := MinOf(s);
      SortedKeysIncreasing(s - {m});
      var rest := SortedKeys(s - {m});
      var r := SortedKeys(s);
      assert r == [m] + rest;
      forall i, j | 0 <= i < j < |r|
        ensures r[i] < r[j]
      {
        assert r[j] == rest[j - 1] && r[j] in s - {m};
        if i > 0 {
          assert r[i] == rest[i - 1];
        }
      }
    }
  }

  /** The number of chunks of width w that n items make, the last one
      possibly short. */
  function Chunks(n: int, w: nat): nat
    requires w > 0
    decreases n
  {
    if n <= 0 then 0 else 1 + Chunks(n - w, w)
  }

  /** Chunk g of width w starts inside n items exactly when g is below the
      chunk count. */
  lemma {:induction false} ChunkIndex(n: int, w: nat, g: nat)
    requires w > 0
    ensures w * g < n <==> g < Chunks(n, w)
  {
    if g > 0 && n > 0 {
      ChunkIndex(n - w, w, g - 1);
      assert w * g == w * (g - 1) + w;
    }
  }

  // ---------------------------------------------------------------------
  // encodeAnswers
  // ---------------------------------------------------------------------

  predicate IsTrit(c: char)
  {
    c == '0' || c == '1' || c == '2'
  }

  predicate AllTrits(t: string)
  {
    forall i :: 0 <= i < |t| ==> IsTrit(t[i])
  }

  /** The base-3 digit of an answer letter: a=0, b=1, c=2, anything else 0. */
  function TernaryDigit(letter: string): (c: char)
    ensures IsTrit(c)
    ensures c == '0' <==> letter != "b" && letter != "c"
    ensures letter == "b" ==> c == '1'
    ensures letter == "c" ==> c == '2'
  {
    if letter == "a" then '0'
    else if letter == "b" then '1'
    else if letter == "c" then '2'
    else '0'
  }

  /** The digit string: one base-3 digit per answer, in ascending key order. */
  function Ternary(answers: Answers): (t: string)
    ensures |t| == |answers| && AllTrits(t)
  {
    var keys := SortedKeys(answers.Keys);
    seq(|keys|, i requires 0 <= i < |keys| => TernaryDigit(answers[keys[i]]))
  }

  /** `parseInt` of a digit the encoder wrote ('0', '1' or '2'). */
  function TritValue(c: char): (v: nat)
    ensures v <= 2
    ensures IsTrit(c) ==> v == DigitValue(c)
  {
    if c == '1' then 1 else if c == '2' then 2 else 0
  }

  /** The number a chunk of three base-3 digits stands for:
      `parseInt(chunk[0]) * 9 + parseInt(chunk[1]) * 3 + parseInt(chunk[2])`. */
  function ChunkValue(chunk: string): (num: nat)
    requires |chunk| == 3
    ensures num <= 26
  {
    TritValue(chunk[0]) * 9 + TritValue(chunk[1]) * 3 + TritValue(chunk[2])
  }

  /** `num.toString(16).padStart(2, '0')` for a chunk's number. */
  function Group(num: nat): (g: string)
    requires num <= 26
    ensures |g| == 2
  {
    ToRadixStringLength(num, 16, 2);
    PadStart(ToRadixString(num, 16), 2, '0')
  }

  /** A group is two hexadecimal digits that read back as the number. */
  lemma GroupDigits(num: nat)
    requires num <= 26
    ensures forall i :: 0 <= i < 2 ==> IsDigitOf(Group(num)[i], 16)
    ensures FromRadixString(Group(num), 16) == num
  {
    var s := ToRadixString(num, 16);
    ToRadixStringLength(num, 16, 2);
    ToRadixStringDigits(num, 16);
    ToRadixStringRoundTrip(num, 16);
    LeadingZero(s);
  }

  /** Padding a one-digit number with a leading '0' keeps its value. */
  lemma LeadingZero(s: string)
    requires 1 <= |s| <= 2 && forall i :: 0 <= i < |s| ==> IsDigitOf(s[i], 16)
    ensures var g := PadStart(s, 2, '0');
      (forall i :: 0 <= i < |g| ==> IsDigitOf(g[i], 16)) && FromRadixString(g, 16) == FromRadixString(s, 16)
  {
    var g := PadStart(s, 2, '0');
    if |s| == 1 {
      assert g == ['0'] + s && g[..1] == ['0'] && g[..0] == [];
      assert s[..0] == [];
    }
  }

  /** The groups of a digit string: each slice of three digits, the last
      one padded with '0', written as its group of two hexadecimal digits. */
  function Groups(t: string): (gs: seq<string>)
    ensures |gs| == Chunks(|t|, 3)
    ensures forall g :: 0 <= g < |gs| ==> |gs[g]| == 2
  {
    seq(Chunks(|t|, 3), g requires 0 <= g => Group(ChunkAt(t, 3 * g)))
  }

  /** The number of the chunk of digits at i: the slice of three from i,
      padded with '0'. */
  function ChunkAt(t: string, i: nat): (num: nat)
    ensures num <= 26
    ensures i >= |t| ==> num == 0
  {
    ChunkValue(PadEnd(Slice(t, i, 3), 3, '0'))
  }

  /** The parts joined in order. */
  function Concat(parts: seq<string>): (s: string)
    ensures (forall g :: 0 <= g < |parts| ==> |parts[g]| == 2) ==> |s| == 2 * |parts|
  {
    if parts == [] then "" else Concat(parts[..|parts| - 1]) + parts[|parts| - 1]
  }

  /** Joining one more part appends it. */
  lemma ConcatStep(parts: seq<string>, g: nat)
    requires g < |parts|
    ensures Concat(parts[..g + 1]) == Concat(parts[..g]) + parts[g]
  {
    assert parts[..g + 1][..g] == parts[..g];
  }

  /** The encoded string of a digit string. */
  function Pack(t: string): (p: string)
    ensures |p| == 2 * Chunks(|t|, 3)
  {
    Concat(Groups(t))
  }

  function Encoding(answers: Answers): (e: string)
    ensures |e| == 2 * Chunks(|answers|, 3)
  {
    Pack(Ternary(answers))
  }

  /** `encodeAnswers`: the base-3 digit string of the answers in ascending
      key order, packed three digits per group. */
  method EncodeAnswers(answers: Answers) returns (result: string)
    ensures result == Encoding(answers)
  {
    var keys := SortedKeys(answers.Keys);
    var encoded := seq(|keys|, i requires 0 <= i < |keys| => TernaryDigit(answers[keys[i]]));
    assert encoded == Ternary(answers);
    result := PackChunks(encoded);
  }

  /** The chunking loop of `encodeAnswers`: each slice of three digits,
      padded with '0', becomes `num.toString(16).padStart(2, '0')`. */
  method PackChunks(encoded: string) returns (result: string)
    ensures result == Pack(encoded)
  {
    result := "";
    ghost var groups := Groups(encoded);
    ghost var g: nat := 0;
    var i: nat := 0;
    while i < |encoded|
      invariant i == 3 * g && g <= |groups|
      invariant result == Concat(groups[..g])
      decreases |encoded| - i
    {
      ChunkIndex(|encoded|, 3, g);
      var chunk := PadEnd(Slice(encoded, i, 3), 3, '0');
      var num := ChunkValue(chunk);
      ConcatStep(groups, g);
      result := result + PadStart(ToRadixString(num, 16), 2, '0');
      g := g + 1;
      i := i + 3;
    }
    ChunkIndex(|encoded|, 3, g);
    assert groups[..g] == groups;
  }

  // ---------------------------------------------------------------------
  // decodeAnswers
  // ---------------------------------------------------------------------

  /** The three base-3 digits `Math.floor(num / 9)`, `Math.floor((num % 9) / 3)`
      and `num % 3`; NaN stays NaN in all three. */
  function Trits(num: IntOrNaN): (d: seq<IntOrNaN>)
    ensures |d| == 3
    ensures num.NaN? ==> d == [NaN, NaN, NaN]
    ensures num.Finite? && num.value >= 0 ==>
              d[0].Finite? && d[1].Finite? && d[2].Finite?
              && 0 <= d[1].value <= 2 && 0 <= d[2].value <= 2
              && 9 * d[0].value + 3 * d[1].value + d[2].value == num.value
  {
    match num
    case NaN => [NaN, NaN, NaN]
    case Finite(n) => [Finite(FloorDiv(n, 9)), Finite(FloorDiv(JsRem(n, 9), 3)), Finite(JsRem(n, 3))]
  }

  predicate IsLetter(s: string)
  {
    s == "a" || s == "b" || s == "c"
  }

  /** 0 is 'a', 1 is 'b', every other digit (NaN included) is 'c'. */
  function Letter(d: IntOrNaN): (s: string)
    ensures IsLetter(s)
    ensures s == "c" <==> d != Finite(0) && d != Finite(1)
    ensures d == Finite(0) ==> s == "a"
    ensures d == Finite(1) ==> s == "b"
  {
    if d == Finite(0) then "a" else if d == Finite(1) then "b" else "c"
  }

  /** The letters `[d0, d1, d2].map(...)` assigns for one parsed number. */
  function ChunkLetters(num: IntOrNaN): (r: seq<string>)
    ensures |r| == 3
    ensures forall j :: 0 <= j < 3 ==> IsLetter(r[j])
    ensures num.NaN? ==> r == ["c", "c", "c"]
  {
    seq(3, j requires 0 <= j < 3 => Letter(Trits(num)[j]))
  }

  /** The numbers the decoder reads: `parseInt(encoded.slice(i, i + 2), 16)`
      for i = 0, 2, 4, ... below the length, the last slice possibly one
      code unit long. */
  function ChunkNumbers(units: seq<int>): (nums: seq<IntOrNaN>)
    ensures |nums| == Chunks(|units|, 2)
  {
    seq(Chunks(|units|, 2), g requires 0 <= g => ParseIntHex(Slice(units, 2 * g, 2)))
  }

  /** The letters of a run of chunk numbers, three per number, in order. */
  function LettersOf(nums: seq<IntOrNaN>): (letters: seq<string>)
    ensures |letters| == 3 * |nums|
    ensures forall k :: 0 <= k < |letters| ==> IsLetter(letters[k])
  {
    if nums == [] then [] else LettersOf(nums[..|nums| - 1]) + ChunkLetters(nums[|nums| - 1])
  }

  /** The letters of one more number follow the letters already placed. */
  lemma LettersStep(nums: seq<IntOrNaN>, g: nat)
    requires g < |nums|
    ensures LettersOf(nums[..g + 1]) == LettersOf(nums[..g]) + ChunkLetters(nums[g])
  {
    assert nums[..g + 1][..g] == nums[..g];
  }

  /** The first fifteen letters as answers to questions 1, 2, ... */
  function Slots(letters: seq<string>): (answers: Answers)
    ensures answers.Keys == Range(Min(15, |letters|))
  {
    map k | k in Range(Min(15, |letters|)) :: letters[k - 1]
  }

  /** The question ids 1..n. */
  function Range(n: nat): (r: set<int>)
    ensures forall k :: k in r <==> 1 <= k <= n
  {
    if n == 0 then {} else Range(n - 1) + {n}
  }

  function Decoding(encoded: string): (answers: Answers)
    ensures answers.Keys == Range(Min(15, 3 * Chunks(|CodeUnits(encoded)|, 2)))
    ensures forall k :: k in answers ==> IsLetter(answers[k])
  {
    Slots(LettersOf(ChunkNumbers(CodeUnits(encoded))))
  }

  /** Filling the next slot (when fewer than 15 are filled) is the slot map
      of one more letter. */
  lemma SlotsStep(letters: seq<string>, x: string, answers: Answers, questionIndex: int)
    requires answers == Slots(letters) && questionIndex == 1 + Min(15, |letters|)
    ensures Slots(letters + [x]) == if questionIndex <= 15 then answers[questionIndex := x] else answers
    ensures 1 + Min(15, |letters| + 1) == if questionIndex <= 15 then questionIndex + 1 else questionIndex
  {
    var l := letters + [x];
    if |letters| < 15 {
      assert Slots(l).Keys == Slots(letters)[|letters| + 1 := x].Keys;
    } else {
      assert Slots(l).Keys == Slots(letters).Keys;
    }
  }

  /** `decodeAnswers`: walks the code units two at a time and fills question
      slots from 1 while fewer than 15 are filled. It never reaches its
      `catch`, so the result is never null. */
  method DecodeAnswers(encoded: string) returns (result: Option<Answers>)
    ensures result == Some(Decoding(encoded))
  {
    var answers := DecodeCodeUnits(CodeUnits(encoded));
    result := Some(answers);
  }

  /** The loop of `decodeAnswers` over the string's code units (the indices
      `length` and `slice` work with). */
  method DecodeCodeUnits(units: seq<int>) returns (answers: Answers)
    ensures answers == Slots(LettersOf(ChunkNumbers(units)))
  {
    answers := map[];
    var questionIndex := 1;
    ghost var nums := ChunkNumbers(units);
    ghost var g: nat := 0;
    var i: nat := 0;
    while i < |units|
      invariant i == 2 * g && g <= |nums|
      invariant answers == Slots(LettersOf(nums[..g])) && questionIndex == 1 + Min(15, 3 * g)
      decreases |units| - i
    {
      ChunkIndex(|units|, 2, g);
      var num := ParseIntHex(Slice(units, i, 2));
      assert num == nums[g];
      answers, questionIndex := PlaceDigits(answers, questionIndex, num, LettersOf(nums[..g]));
      LettersStep(nums, g);
      g := g + 1;
      i := i + 2;
    }
    ChunkIndex(|units|, 2, g);
    assert nums[..g] == nums;
  }

  /** The `[d0, d1, d2].forEach` step: each digit's letter goes to the next
      question slot while fewer than 15 are filled. */
  method PlaceDigits(answers: Answers, questionIndex: int, num: IntOrNaN, ghost filled: seq<string>)
    returns (answers': Answers, questionIndex': int)
    requires answers == Slots(filled) && questionIndex == 1 + Min(15, |filled|)
    ensures answers' == Slots(filled + ChunkLetters(num))
    ensures questionIndex' == 1 + Min(15, |filled| + 3)
  {
    var digits := Trits(num);
    ghost var letters := ChunkLetters(num);
    answers', questionIndex' := answers, questionIndex;
    for j := 0 to 3
      invariant answers' == Slots(filled + letters[..j]) && questionIndex' == 1 + Min(15, |filled| + j)
    {
      var letter := Letter(digits[j]);
      SlotsNext(filled, letters, j, answers', questionIndex');
      if questionIndex' <= 15 {
        answers' := answers'[questionIndex' := letter];
        questionIndex' := questionIndex' + 1;
      }
    }
    assert letters[..3] == letters;
  }

  /** Placing the j-th letter of a chunk extends the slot map by one letter. */
  lemma SlotsNext(filled: seq<string>, letters: seq<string>, j: nat, answers: Answers, questionIndex: int)
    requires j < |letters|
    requires answers == Slots(filled + letters[..j]) && questionIndex == 1 + Min(15, |filled| + j)
    ensures Slots(filled + letters[..j + 1]) == if questionIndex <= 15 then answers[questionIndex := letters[j]] else answers
    ensures 1 + Min(15, |filled| + j + 1) == if questionIndex <= 15 then questionIndex + 1 else questionIndex
  {
    assert filled + letters[..j + 1] == (filled + letters[..j]) + [letters[j]];
    SlotsStep(filled + letters[..j], letters[j], answers, questionIndex);
  }

  // ---------------------------------------------------------------------
  // generateResultId
  // ---------------------------------------------------------------------

  /** The answer values joined in ascending key order. */
  function AnswerString(answers: Answers): (s: string)
    ensures (forall k :: k in answers ==> |answers[k]| == 1) ==> |s| == |answers|
  {
    var keys := SortedKeys(answers.Keys);
    assert (forall k :: k in answers ==> |answers[k]| == 1) ==>
      forall i :: 0 <= i < |keys| ==> |answers[keys[i]]| == 1;
    assert |answers.Keys| == |answers|;
    Join(keys, answers)
  }

  function Join(keys: seq<int>, answers: Answers): (s: string)
    requires forall i :: 0 <= i < |keys| ==> keys[i] in answers
    ensures (forall i :: 0 <= i < |keys| ==> |answers[keys[i]]| == 1) ==> |s| == |keys|
  {
    if keys == [] then ""
    else Join(keys[..|keys| - 1], answers) + answers[keys[|keys| - 1]]
  }

  /** `hash = (hash << 5) - hash + char; hash = hash & hash`. */
  function HashStep(hash: int, unit: int): (h: int)
    ensures -TwoTo31 <= h < TwoTo31
  {
    var x := ShiftLeft(hash, 5) - hash + unit;
    BitAnd(x, x)
  }

  /** The hash of a run of code units, starting from 0. */
  function HashOf(units: seq<int>): (h: int)
    ensures -TwoTo31 <= h < TwoTo31
  {
    if units == [] then 0 else HashStep(HashOf(units[..|units| - 1]), units[|units| - 1])
  }

  function ResultId(answers: Answers): (id: string)
    ensures 1 <= |id|
    ensures forall i :: 0 <= i < |id| ==> IsDigitOf(id[i], 36)
  {
    ToRadixStringDigits(Abs(HashOf(CodeUnits(AnswerString(answers)))), 36);
    ToRadixString(Abs(HashOf(CodeUnits(AnswerString(answers)))), 36)
  }

  /** `generateResultId`: hash the joined answers' UTF-16 code units, then
      write the absolute value in base 36. */
  method GenerateResultId(answers: Answers) returns (id: string)
    ensures id == ResultId(answers)
  {
    var answerString := AnswerString(answers);
    var hash := HashCodeUnits(CodeUnits(answerString));
    id := ToRadixString(Abs(hash), 36);
  }

  /** One more code unit takes the hash one step further. */
  lemma HashStepAt(units: seq<int>, i: nat, previous: int, mixed: int, next: int)
    requires i < |units| && previous == HashOf(units[..i])
    requires mixed == ShiftLeft(previous, 5) - previous + units[i]
    requires next == BitAnd(mixed, mixed)
    ensures next == HashOf(units[..i + 1])
  {
    assert units[..i + 1][..i] == units[..i];
  }

  /** After the last code unit the prefix hashed is the whole run. */
  lemma HashWhole(units: seq<int>, hash: int)
    requires hash == HashOf(units[..|units|])
    ensures hash == HashOf(units)
  {
    assert units[..|units|] == units;
  }

  /** The hashing loop of `generateResultId`, over `charCodeAt` values. */
  method HashCodeUnits(units: seq<int>) returns (hash: int)
    ensures hash == HashOf(units)
  {
    hash := 0;
    for i := 0 to |units|
      invariant hash == HashOf(units[..i])
    {
      var code := units[i];
      ghost var previous := hash;
      hash := (ShiftLeft(hash, 5) - hash) + code;
      ghost var mixed := hash;
      hash := BitAnd(hash, hash);
      HashStepAt(units, i, previous, mixed, hash);
    }
    HashWhole(units, hash);
  }
}
