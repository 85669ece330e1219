/** TID record keys (atproto/tid.py): a 63-bit number in 13 base32-sortable characters. */
module Tid {
  import opened Common
  import opened Powers
  import opened Strings

  const ALPHABET: string := "234567abcdefghijklmnopqrstuvwxyz"
  const TID_LENGTH: nat := 13
  const MAX_CLOCK_ID: nat := 1023
  const MAX_MICROSECONDS: nat := 0x1F_FFFF_FFFF_FFFF

  // ValueError is the refusal the module documents; KeyError is the one that
  // escapes from the table lookup when the pattern let a trailing newline by.
  datatype TidError = ValueError | KeyError

  // ----- specification ------------------------------------------------------

  /** The `n` low base-32 digits of `value`, most significant first. */
  function Digits(value: nat, n: nat): (s: string)
    ensures |s| == n
  {
    if n == 0 then "" else Digits(value / 32, n - 1) + [Letter(value % 32)]
  }

  /** The alphabet as arithmetic on code points; AlphabetTable ties it to the literal. */
  function Letter(d: nat): (c: char)
    requires d < 32
    ensures InAlphabet(c)
  {
    if d < 6 then (50 + d) as char else (91 + d) as char
  }

  predicate InAlphabet(c: char) {
    '2' <= c <= '7' || 'a' <= c <= 'z'
  }

  /** The inverse table: where `c` sits in the alphabet. */
  function DigitOf(c: char): (d: nat)
    requires InAlphabet(c)
    ensures d < 32 && Letter(d) == c
  {
    if c <= '7' then c as int - 50 else c as int - 91
  }

  lemma AlphabetTable()
    ensures |ALPHABET| == 32
    ensures forall d :: 0 <= d < 32 ==> ALPHABET[d] == Letter(d)
    ensures forall i, j :: 0 <= i < j < 32 ==> Letter(i) < Letter(j)
  {
  }

  predicate AllDigits(s: string) {
    forall k :: 0 <= k < |s| ==> InAlphabet(s[k])
  }

  /** The number a digit string denotes. */
  function Value(s: string): nat
    requires AllDigits(s)
  {
    if s == "" then 0 else Value(s[..|s| - 1]) * 32 + DigitOf(s[|s| - 1])
  }

  /** The key of (microseconds, clock identifier): the two packed in one number. */
  function TidOf(us: nat, clock: nat): (s: string)
    ensures |s| == TID_LENGTH
  {
    Digits(us * 1024 + clock, TID_LENGTH)
  }

  predicate InRange(us: int, clock: int) {
    0 <= us <= MAX_MICROSECONDS && 0 <= clock <= MAX_CLOCK_ID
  }

  predicate IsTid(s: string) {
    |s| == TID_LENGTH && AllDigits(s)
  }

  /** `$` in the pattern also matches just before a final newline. */
  predicate PatternMatches(s: string) {
    IsTid(s) || (|s| == TID_LENGTH + 1 && s[TID_LENGTH] == '\n' && IsTid(s[..TID_LENGTH]))
  }

  function Reversed(s: string): (r: string)
    ensures |r| == |s|
  {
    if s == "" then "" else Reversed(s[1..]) + [s[0]]
  }

  // ----- the two loops ------------------------------------------------------

  lemma AlphabetLetter(d: nat)
    requires d < 32
    ensures d < |ALPHABET| && ALPHABET[d] == Letter(d)
  {
    AlphabetTable();
  }

  method EncodeTid(microseconds: int, clockId: int) returns (r: Result<string, TidError>)
    ensures r.Ok? <==> InRange(microseconds, clockId)
    ensures r.Ok? ==> r.value == TidOf(microseconds, clockId)
    ensures r.Err? ==> r.error == ValueError
  {
    if !(0 <= microseconds <= MAX_MICROSECONDS) || !(0 <= clockId <= MAX_CLOCK_ID) {
      return Err(ValueError);
    }
    var tid := EncodeDigits(microseconds * 1024 + clockId, TID_LENGTH);
    return Ok(tid);
  }

  /** The loop of `encode_tid`, for any number of digits. */
  method EncodeDigits(packed: nat, length: nat) returns (s: string)
    ensures s == Digits(packed, length)
  {
    var value := packed;
    var characters := "";
    var i := 0;
    while i < length
      invariant 0 <= i <= length && value >= 0
      invariant Digits(value, length - i) + Reversed(characters) == Digits(packed, length)
    {
      MoveDigit(value, length - i, characters);
      AlphabetLetter(value % 32);
      characters := characters + [ALPHABET[value % 32]];
      value := value / 32;
      i := i + 1;
    }
    return Reversed(characters);
  }

  /** One turn of the loop moves the lowest digit across. */
  lemma MoveDigit(value: nat, n: nat, characters: string)
    requires n > 0
    ensures Digits(value, n) + Reversed(characters)
         == Digits(value / 32, n - 1) + Reversed(characters + [Letter(value % 32)])
  {
    ReversedAppend(characters, Letter(value % 32));
  }

  lemma {:induction false} ReversedAppend(s: string, c: char)
    ensures Reversed(s + [c]) == [c] + Reversed(s)
  {
    if s == "" {
    } else {
      assert (s + [c])[1..] == s[1..] + [c];
      ReversedAppend(s[1..], c);
    }
  }

  method DecodeTid(tid: string) returns (r: Result<(nat, nat), TidError>)
    ensures r.Ok? <==> IsTid(tid)
    ensures r.Ok? ==> r.value == (Value(tid) / 1024, Value(tid) % 1024)
    ensures r == Err(KeyError) <==> PatternMatches(tid) && !IsTid(tid)
  {
    if !PatternMatches(tid) {
      return Err(ValueError);
    }
    var value := 0;
    var i := 0;
    while i < |tid|
      invariant 0 <= i <= |tid|
      invariant AllDigits(tid[..i]) && value == Value(tid[..i])
    {
      if !InAlphabet(tid[i]) {
        return Err(KeyError);
      }
      assert tid[..i + 1][..i] == tid[..i];
      value := value * 32 + DigitOf(tid[i]);
      i := i + 1;
    }
    assert tid[..i] == tid;
    return Ok((value / 1024, value % 1024));
  }

  // ----- round trips --------------------------------------------------------

  /** Encoding then decoding a number that fits in n digits gives it back. */
  lemma {:induction false} ValueOfDigits(value: nat, n: nat)
    requires value < Pow(32, n)
    ensures AllDigits(Digits(value, n)) && Value(Digits(value, n)) == value
  {
    if n == 0 {
    } else {
      ValueOfDigits(value / 32, n - 1);
      ValueAppend(Digits(value / 32, n - 1), Letter(value % 32));
    }
  }

  lemma ValueAppend(s: string, c: char)
    requires AllDigits(s) && InAlphabet(c)
    ensures AllDigits(s + [c]) && Value(s + [c]) == Value(s) * 32 + DigitOf(c)
  {
    assert (s + [c])[..|s|] == s;
  }

  /** Decoding then encoding with the same number of digits gives the string back. */
  lemma {:induction false} DigitsOfValue(s: string)
    requires AllDigits(s)
    ensures Value(s) < Pow(32, |s|) && Digits(Value(s), |s|) == s
  {
    if s == "" {
    } else {
      DigitsOfValue(s[..|s| - 1]);
      assert s == s[..|s| - 1] + [s[|s| - 1]];
    }
  }

  lemma ThirteenDigits()
    ensures Pow(32, 12) == 0x1000_0000_0000_0000 && Pow(32, 13) == 32 * 0x1000_0000_0000_0000
  {
  }

  /** decode(encode(us, clock)) == (us, clock) on the whole accepted range. */
  lemma DecodeEncode(us: nat, clock: nat)
    requires InRange(us, clock)
    ensures IsTid(TidOf(us, clock))
    ensures Value(TidOf(us, clock)) / 1024 == us && Value(TidOf(us, clock)) % 1024 == clock
  {
    DecodePacked(us, clock, TID_LENGTH);
  }

  lemma DecodePacked(us: nat, clock: nat, n: nat)
    requires InRange(us, clock) && n == TID_LENGTH
    ensures AllDigits(Digits(us * 1024 + clock, n)) && Value(Digits(us * 1024 + clock, n)) == us * 1024 + clock
  {
    PackedFits(us, clock, n);
    ValueOfDigits(us * 1024 + clock, n);
  }

  /** The packed number has thirteen digits at most. */
  lemma PackedFits(us: nat, clock: nat, n: nat)
    requires InRange(us, clock) && n == TID_LENGTH
    ensures us * 1024 + clock < Pow(32, n)
  {
    ThirteenDigits();
  }

  /** The first character alone brackets the number: it is its leading digit. */
  lemma {:induction false} LeadingDigit(s: string)
    requires s != "" && AllDigits(s)
    ensures DigitOf(s[0]) * Pow(32, |s| - 1) <= Value(s) < (DigitOf(s[0]) + 1) * Pow(32, |s| - 1)
  {
    if |s| == 1 {
      assert Value(s[..0]) == 0;
    } else {
      LeadingDigit(s[..|s| - 1]);
      ShiftBounds(DigitOf(s[0]), Pow(32, |s| - 2), Value(s[..|s| - 1]), DigitOf(s[|s| - 1]));
    }
  }

  lemma ShiftBounds(d: nat, p: nat, v: nat, e: nat)
    requires d * p <= v < (d + 1) * p && e < 32
    ensures d * (32 * p) <= v * 32 + e < (d + 1) * (32 * p)
  {
  }

  /** encode(decode(s)) is accepted, and is then s, exactly when s starts with one
      of the first eight letters; every other 13-character string decodes to a
      time the encoder refuses. */
  lemma EncodeDecode(s: string)
    requires IsTid(s)
    ensures InRange(Value(s) / 1024, Value(s) % 1024) <==> DigitOf(s[0]) < 8
    ensures TidOf(Value(s) / 1024, Value(s) % 1024) == s
  {
    ThirteenDigits();
    LeadingDigit(s);
    DigitsOfValue(s);
    assert Value(s) / 1024 * 1024 + Value(s) % 1024 == Value(s);
  }

  // ----- order --------------------------------------------------------------

  lemma {:induction false} DigitsOrder(v: nat, w: nat, n: nat)
    requires v < Pow(32, n) && w < Pow(32, n)
    ensures Less(Digits(v, n), Digits(w, n)) <==> v < w
  {
    if n == 0 {
    } else {
      DigitsOrder(v / 32, w / 32, n - 1);
      DigitsInjective(v / 32, w / 32, n - 1);
      LastDigitOrder(v, w);
      LessConcat(Digits(v / 32, n - 1), Digits(w / 32, n - 1), [Letter(v % 32)], [Letter(w % 32)]);
    }
  }

  lemma DigitsInjective(v: nat, w: nat, n: nat)
    requires v < Pow(32, n) && w < Pow(32, n)
    ensures Digits(v, n) == Digits(w, n) <==> v == w
  {
    ValueOfDigits(v, n);
    ValueOfDigits(w, n);
  }

  lemma LastDigitOrder(v: nat, w: nat)
    ensures v < w <==> v / 32 < w / 32 || (v / 32 == w / 32 && Less([Letter(v % 32)], [Letter(w % 32)]))
  {
  }

  /** Keys sort as strings exactly as (time, clock identifier) sorts as numbers. */
  lemma KeyOrderIsTimeOrder(us: nat, clock: nat, us': nat, clock': nat)
    requires InRange(us, clock) && InRange(us', clock')
    ensures Less(TidOf(us, clock), TidOf(us', clock')) <==> us < us' || (us == us' && clock < clock')
  {
    PackedOrder(us, clock, us', clock', TID_LENGTH);
  }

  lemma PackedOrder(us: nat, clock: nat, us': nat, clock': nat, n: nat)
    requires InRange(us, clock) && InRange(us', clock') && n == TID_LENGTH
    ensures Less(Digits(us * 1024 + clock, n), Digits(us' * 1024 + clock', n))
       <==> us * 1024 + clock < us' * 1024 + clock'
  {
    PackedFits(us, clock, n);
    PackedFits(us', clock', n);
    DigitsOrder(us * 1024 + clock, us' * 1024 + clock', n);
  }
}
