/**
  * The signature definitions parser of the sigscan tool (scan_handle.c):
  * the decimal offset parser `copy_string_to_offset`, the escape decoder
  * `copy_string_to_pattern`, and the grammar of one definition line,
  * `identifier offset pattern`, that `read_signature_definitions` applies
  * to every line of a definitions file before it adds the signature to the
  * scanner.
  */
module ScanHandle {
  import opened Common
  import opened Signatures

  const NUL: byte := 0x00
  const TAB: byte := 0x09
  const LF: byte := 0x0A
  const CR: byte := 0x0D
  const SPACE: byte := 0x20
  const HASH: byte := 0x23
  const PLUS: byte := 0x2B
  const MINUS: byte := 0x2D
  const ZERO: byte := 0x30
  const BACKSLASH: byte := 0x5C
  const LOWER_X: byte := 0x78

  /**
    * The largest string index at which an unsigned offset may still have a
    * digit; a leading sign moves it one place on. An offset therefore has at
    * most 21 digits.
    */
  const MAXIMUM_STRING_INDEX: nat := 20

  // ---------------------------------------------------------------------
  // Offsets
  // ---------------------------------------------------------------------

  predicate IsDigit(b: byte) {
    0x30 <= b <= 0x39
  }

  function DigitValue(b: byte): nat
    requires IsDigit(b)
  {
    b - ZERO
  }

  /**
    * The value of the decimal digits `digits`, most significant first (a
    * byte that is not a digit counts as 0; no caller passes one).
    */
  function DecimalValue(digits: seq<byte>): nat
  {
    if digits == [] then 0
    else
      var last := digits[|digits| - 1];
      10 * DecimalValue(digits[..|digits| - 1]) + if IsDigit(last) then DigitValue(last) else 0
  }

  /**
    * Where the text of `s` that starts at `from` ends: at its first NUL
    * before `size`, else at `size`; at `from` itself when `from` is not
    * before `size`.
    */
  function TextEnd(s: seq<byte>, from: nat, size: nat): (end: nat)
    requires size <= |s|
    ensures from <= end && (end <= size || end == from)
    ensures end < size ==> s[end] == NUL
    decreases size - from
  {
    if from >= size || s[from] == NUL then from else TextEnd(s, from + 1, size)
  }

  /** The first index from `from` on and before `to` whose byte is not a digit; `to` when there is none. */
  function FirstNonDigit(s: seq<byte>, from: nat, to: nat): (k: nat)
    requires from <= to <= |s|
    ensures from <= k <= to
    ensures k < to ==> !IsDigit(s[k])
    decreases (to as int) - from
  {
    if from == to || !IsDigit(s[from]) then from else FirstNonDigit(s, from + 1, to)
  }

  /** The number of bytes a leading sign takes. */
  function SignLength(first: byte): nat {
    if first == MINUS || first == PLUS then 1 else 0
  }

  /**
    * The offset `copy_string_to_offset` makes of the string `s` of
    * `size` bytes: an optional sign, then decimal digits up to a NUL or the
    * end of the string. A size above SSIZE_MAX, a byte that is not a digit,
    * and a digit past the largest string index are errors; the first of
    * the last two in string order decides. The value is an unbounded
    * integer: it is the C's off64_t value whenever its magnitude is at most
    * INT64_MAX (`PartialValuesBelow`).
    */
  function ParsedOffset(s: seq<byte>, size: nat): Result<int>
    requires 0 < |s| && size <= |s|
  {
    if size > SSIZE_MAX then Err(ValueExceedsMaximum)
    else
      var start := SignLength(s[0]);
      var end := TextEnd(s, start, size);
      var checked := if end <= start + MAXIMUM_STRING_INDEX + 1 then end else start + MAXIMUM_STRING_INDEX + 1;
      if FirstNonDigit(s, start, checked) < checked then Err(UnsupportedValue)
      else if end > checked then Err(ValueTooLarge)
      else if s[0] == MINUS then Ok(-(DecimalValue(s[start..end]) as int))
      else Ok(DecimalValue(s[start..end]))
  }

  /** `TextEnd` is the first NUL from `from` on, or the size. */
  lemma {:induction false} TextEndAt(s: seq<byte>, from: nat, size: nat, end: nat)
    requires size <= |s| && from <= end && (end <= size || end == from)
    requires forall k | from <= k < end :: s[k] != NUL
    requires (end < size && s[end] == NUL) || end == size || (end == from && from >= size)
    ensures TextEnd(s, from, size) == end
    decreases end - from
  {
    if from < end {
      TextEndAt(s, from + 1, size, end);
    }
  }

  /** `FirstNonDigit` is the first byte that is not a digit, or the bound. */
  lemma {:induction false} FirstNonDigitAt(s: seq<byte>, from: nat, to: nat, k: nat)
    requires from <= k <= to <= |s|
    requires forall j | from <= j < k :: IsDigit(s[j])
    requires k == to || !IsDigit(s[k])
    ensures FirstNonDigit(s, from, to) == k
    decreases k - from
  {
    if from < k {
      FirstNonDigitAt(s, from + 1, to, k);
    }
  }

  /** One more digit multiplies the value so far by ten and adds its own. */
  lemma DecimalValueStep(s: seq<byte>, start: nat, index: nat)
    requires start <= index < |s|
    requires forall k | start <= k <= index :: IsDigit(s[k])
    ensures DecimalValue(s[start..index + 1]) == 10 * DecimalValue(s[start..index]) + DigitValue(s[index])
  {
    assert s[start..index + 1][..index - start] == s[start..index];
  }

  /**
    * Converts a string to an offset (`copy_string_to_offset`). The digits
    * are accumulated one at a time; a minus sign negates the total at the
    * end.
    */
  method CopyStringToOffset(s: seq<byte>, size: nat) returns (r: Result<int>)
    requires 0 < |s| && size <= |s|
    ensures r == ParsedOffset(s, size)
  {
    if size > SSIZE_MAX {
      return Err(ValueExceedsMaximum);
    }
    var offset: nat := 0;
    var index: nat := 0;
    var maximumIndex := MAXIMUM_STRING_INDEX;
    var negative := false;
    if s[index] == MINUS {
      index := index + 1;
      maximumIndex := maximumIndex + 1;
      negative := true;
    } else if s[index] == PLUS {
      index := index + 1;
      maximumIndex := maximumIndex + 1;
    }
    ghost var start := index;
    assert start == SignLength(s[0]);
    while index < size
      invariant start <= index <= maximumIndex + 1 && maximumIndex == start + MAXIMUM_STRING_INDEX
      invariant start < index ==> index <= size
      invariant forall k | start <= k < index :: s[k] != NUL && IsDigit(s[k])
      invariant offset == DecimalValue(s[start..index])
      decreases size - index
    {
      if s[index] == NUL {
        break;
      }
      if index > maximumIndex {
        OffsetTooLarge(s, size, index);
        return Err(ValueTooLarge);
      }
      offset := offset * 10;
      var digit: nat;
      if IsDigit(s[index]) {
        digit := DigitValue(s[index]);
      } else {
        OffsetNotDigit(s, size, index);
        return Err(UnsupportedValue);
      }
      DecimalValueStep(s, start, index);
      offset := offset + digit;
      index := index + 1;
    }
    OffsetDigits(s, size, index);
    if negative {
      return Ok(-(offset as int));
    }
    return Ok(offset);
  }

  /** A digit, rather than the end of the text, past the largest string index makes the offset too large. */
  lemma OffsetTooLarge(s: seq<byte>, size: nat, index: nat)
    requires 0 < |s| && size <= |s| && size <= SSIZE_MAX
    requires index == SignLength(s[0]) + MAXIMUM_STRING_INDEX + 1 && index < size && s[index] != NUL
    requires forall k | SignLength(s[0]) <= k < index :: s[k] != NUL && IsDigit(s[k])
    ensures ParsedOffset(s, size) == Err(ValueTooLarge)
  {
    var start := SignLength(s[0]);
    TextEndGoesOn(s, start, size, index);
    FirstNonDigitAt(s, start, index, index);
  }

  /** A byte that is neither a digit nor the end of the text, at or before the largest string index, is unsupported. */
  lemma OffsetNotDigit(s: seq<byte>, size: nat, index: nat)
    requires 0 < |s| && size <= |s| && size <= SSIZE_MAX
    requires SignLength(s[0]) <= index <= SignLength(s[0]) + MAXIMUM_STRING_INDEX && index < size
    requires s[index] != NUL && !IsDigit(s[index])
    requires forall k | SignLength(s[0]) <= k < index :: s[k] != NUL && IsDigit(s[k])
    ensures ParsedOffset(s, size) == Err(UnsupportedValue)
  {
    var start := SignLength(s[0]);
    TextEndGoesOn(s, start, size, index);
    var end := TextEnd(s, start, size);
    var checked := if end <= start + MAXIMUM_STRING_INDEX + 1 then end else start + MAXIMUM_STRING_INDEX + 1;
    FirstNonDigitAt(s, start, checked, index);
  }

  /** Digits only, up to a NUL or the size, give their value, negated after a minus sign. */
  lemma OffsetDigits(s: seq<byte>, size: nat, index: nat)
    requires 0 < |s| && size <= |s| && size <= SSIZE_MAX
    requires SignLength(s[0]) <= index <= SignLength(s[0]) + MAXIMUM_STRING_INDEX + 1
    requires (index < size && s[index] == NUL) || index == size || (index == SignLength(s[0]) && index >= size)
    requires forall k | SignLength(s[0]) <= k < index :: s[k] != NUL && IsDigit(s[k])
    ensures index <= |s|
    ensures ParsedOffset(s, size) ==
      if s[0] == MINUS then Ok(-(DecimalValue(s[SignLength(s[0])..index]) as int))
      else Ok(DecimalValue(s[SignLength(s[0])..index]))
  {
    var start := SignLength(s[0]);
    TextEndAt(s, start, size, index);
    FirstNonDigitAt(s, start, index, index);
  }

  /** A text whose bytes up to `index` are not NUL ends after `index`. */
  lemma TextEndGoesOn(s: seq<byte>, from: nat, size: nat, index: nat)
    requires size <= |s| && from <= index < size
    requires forall k | from <= k <= index :: s[k] != NUL
    ensures index < TextEnd(s, from, size)
  {
  }

  /** The decimal digits of `n`, most significant first, without leading zeros. */
  function DecimalText(n: nat): (text: seq<byte>)
    ensures 0 < |text|
    ensures forall k | 0 <= k < |text| :: IsDigit(text[k])
  {
    if n < 10 then [ZERO + n] else DecimalText(n / 10) + [ZERO + n % 10]
  }

  /** The text of an offset as a definitions file writes it: a minus sign for a negative one. */
  function OffsetText(offset: int): (text: seq<byte>)
  {
    (if offset < 0 then [MINUS] else []) + DecimalText(if offset < 0 then -offset else offset)
  }

  /** The digits of `n` have the value `n`. */
  lemma {:induction false} DecimalTextValue(n: nat)
    ensures DecimalValue(DecimalText(n)) == n
  {
    if n >= 10 {
      DecimalTextValue(n / 10);
      var text := DecimalText(n);
      assert text[..|text| - 1] == DecimalText(n / 10);
    }
  }

  /** Ten to the power `k`. */
  function Power10(k: nat): (p: nat)
    ensures 0 < p
  {
    if k == 0 then 1 else 10 * Power10(k - 1)
  }

  /** A number below ten to the power `k` has at most `k` digits. */
  lemma {:induction false} DecimalTextLength(n: nat, k: nat)
    requires 0 < k && n < Power10(k)
    ensures |DecimalText(n)| <= k
  {
    if n >= 10 {
      DecimalTextLength(n / 10, k - 1);
    }
  }

  /** A magnitude an off64_t holds has at most 19 digits. */
  lemma Int64Digits(n: nat)
    requires n <= INT64_MAX
    ensures |DecimalText(n)| <= 19
  {
    assert Power10(5) == 100_000;
    assert Power10(10) == 10_000_000_000;
    assert Power10(15) == 1_000_000_000_000_000;
    assert Power10(19) == 10_000_000_000_000_000_000;
    DecimalTextLength(n, 19);
  }

  /**
    * Every value the conversion holds on the way to the value of `digits`
    * (the total so far, ten times it, and that plus the next digit) is at
    * most that value: when the value fits an off64_t, so does every step,
    * and the unbounded arithmetic is the C's.
    */
  lemma {:induction false} PartialValuesBelow(digits: seq<byte>, i: nat)
    requires i < |digits|
    ensures DecimalValue(digits[..i]) <= 10 * DecimalValue(digits[..i]) <= DecimalValue(digits[..i + 1]) <= DecimalValue(digits)
    decreases |digits| - i
  {
    assert digits[..i + 1][..i] == digits[..i];
    if i + 1 < |digits| {
      PartialValuesBelow(digits, i + 1);
    } else {
      assert digits[..i + 1] == digits;
    }
  }

  /**
    * An offset whose magnitude an off64_t holds, written with a minus sign
    * when it is negative and ended by a NUL, converts back to itself.
    */
  lemma OffsetRoundTrip(offset: int, s: seq<byte>, size: nat)
    requires -INT64_MAX <= offset <= INT64_MAX
    requires size <= |s| && s[..size] == OffsetText(offset) + [NUL]
    ensures ParsedOffset(s, size) == Ok(offset)
  {
    var magnitude := if offset < 0 then -offset else offset;
    var digits := DecimalText(magnitude);
    Int64Digits(magnitude);
    var sign: seq<byte> := if offset < 0 then [MINUS] else [];
    var start := |sign|;
    assert s[..size] == sign + digits + [NUL];
    assert s[0] == s[..size][0];
    assert SignLength(s[0]) == start;
    assert s[start..size - 1] == s[..size][start..size - 1] == digits;
    assert s[size - 1] == s[..size][size - 1];
    DecimalTextValue(magnitude);
    DigitsThenNul(s, size, digits);
  }

  /** Digits right after the optional sign and a NUL after them give the value of the digits. */
  lemma DigitsThenNul(s: seq<byte>, size: nat, digits: seq<byte>)
    requires 0 < |s| && size <= |s| && size <= SSIZE_MAX
    requires |digits| <= MAXIMUM_STRING_INDEX + 1 && forall k | 0 <= k < |digits| :: IsDigit(digits[k])
    requires DecimalValue(digits) <= INT64_MAX
    requires SignLength(s[0]) + |digits| < size
    requires s[SignLength(s[0])..SignLength(s[0]) + |digits|] == digits && s[SignLength(s[0]) + |digits|] == NUL
    ensures ParsedOffset(s, size) == if s[0] == MINUS then Ok(-(DecimalValue(digits) as int)) else Ok(DecimalValue(digits))
  {
    var start := SignLength(s[0]);
    forall k | start <= k < start + |digits|
      ensures s[k] != NUL && IsDigit(s[k])
    {
      assert s[k] == digits[k - start];
    }
    OffsetDigits(s, size, start + |digits|);
  }

  // ---------------------------------------------------------------------
  // Patterns
  // ---------------------------------------------------------------------

  /** The byte a one-character escape `\c` stands for: `\\ \a \b \f \n \r \t \v`. */
  function SimpleEscape(c: byte): Option<byte> {
    if c == BACKSLASH then Some(BACKSLASH)
    else if c == 0x61 then Some(0x07)  // 'a'
    else if c == 0x62 then Some(0x08)  // 'b'
    else if c == 0x66 then Some(0x0C)  // 'f'
    else if c == 0x6E then Some(LF)    // 'n'
    else if c == 0x72 then Some(CR)    // 'r'
    else if c == 0x74 then Some(TAB)   // 't'
    else if c == 0x76 then Some(0x0B)  // 'v'
    else None
  }

  /** The value of a hexadecimal digit in either case. */
  function HexValue(c: byte): (v: Option<nat>)
    ensures v.Some? ==> v.value < 16
  {
    if 0x30 <= c <= 0x39 then Some(c - 0x30)
    else if 0x41 <= c <= 0x46 then Some(c - 0x41 + 10)
    else if 0x61 <= c <= 0x66 then Some(c - 0x61 + 10)
    else None
  }

  /** `prefix` in front of a decoded rest; an error stays an error. */
  function Prepend(prefix: seq<byte>, rest: Result<seq<byte>>): Result<seq<byte>> {
    if rest.Ok? then Ok(prefix + rest.value) else rest
  }

  /**
    * One step of `copy_string_to_pattern` at index `i`: the byte it writes
    * and the index it goes on from. A byte other than a backslash stands for
    * itself; a backslash and the byte after it are one escape. `\xHH` with
    * two hexadecimal digits is the byte of that value; `\x` followed by
    * anything else stands for a backslash and goes on after the `x`; `\x`
    * with fewer than two bytes after it before the last byte, and any other
    * unknown escape, are errors.
    */
  function Escape(s: seq<byte>, size: nat, i: nat): (r: Result<(byte, nat)>)
    requires 0 < size <= |s| && i < size - 1
    ensures r.Ok? ==> i < r.value.1 <= size
  {
    if s[i] != BACKSLASH then Ok((s[i], i + 1))
    else
      var c := s[i + 1];
      if SimpleEscape(c).Some? then Ok((SimpleEscape(c).value, i + 2))
      else if c != LOWER_X then Err(ValueOutOfBounds)
      else if i + 3 >= size then Err(ValueOutOfBounds)
      else if HexValue(s[i + 2]).Some? && HexValue(s[i + 3]).Some? then
        Ok(((16 * HexValue(s[i + 2]).value + HexValue(s[i + 3]).value) as byte, i + 4))
      else Ok((BACKSLASH, i + 2))
  }

  /**
    * The pattern `copy_string_to_pattern` decodes from the bytes of `s`
    * from `i` on, up to but not including the last of its `size` bytes: one
    * byte per step, at most as many bytes as the string has before its last.
    */
  function Unescaped(s: seq<byte>, size: nat, i: nat): (r: Result<seq<byte>>)
    requires 0 < size <= |s| && i <= size
    ensures r.Ok? && i < size ==> |r.value| <= size - 1 - i
    ensures i >= size - 1 ==> r == Ok([])
    decreases size - i
  {
    if i >= size - 1 then Ok([])
    else
      match Escape(s, size, i)
      case Err(e) => Err(e)
      case Ok((b, next)) => Prepend([b], Unescaped(s, size, next))
  }

  lemma PrependPrepend(a: seq<byte>, b: seq<byte>, r: Result<seq<byte>>)
    ensures Prepend(a, Prepend(b, r)) == Prepend(a + b, r)
  {
    if r.Ok? {
      assert a + (b + r.value) == (a + b) + r.value;
    }
  }

  /**
    * The body of the loop of `copy_string_to_pattern`: the byte at `index`,
    * or the escape that starts there, decoded into one pattern byte.
    */
  method NextPatternByte(s: seq<byte>, size: nat, index: nat) returns (r: Result<(byte, nat)>)
    requires 0 < size <= |s| && index < size - 1
    ensures r == Escape(s, size, index)
  {
    var value := s[index];
    var next := index + 1;
    if value == BACKSLASH {
      var escaped := SimpleEscape(s[next]);
      if escaped.Some? {
        value := escaped.value;
      } else if s[next] == LOWER_X {
        if next + 2 >= size {
          return Err(ValueOutOfBounds);
        }
        var high := HexValue(s[next + 1]);
        var low := HexValue(s[next + 2]);
        if high.Some? && low.Some? {
          value := (16 * high.value + low.value) as byte;
          next := next + 2;
        }
      } else {
        return Err(ValueOutOfBounds);
      }
      next := next + 1;
    }
    return Ok((value, next));
  }

  /**
    * Converts a string to a pattern (`copy_string_to_pattern`): the pattern
    * buffer, as large as the string, is written one byte per step while the
    * string index moves past the byte and its escape.
    */
  method CopyStringToPattern(s: seq<byte>, size: nat) returns (r: Result<seq<byte>>)
    requires 0 < size <= |s|
    ensures r == Unescaped(s, size, 0)
    ensures r.Ok? ==> |r.value| <= size - 1
  {
    var pattern := new byte[size];
    var patternIndex: nat := 0;
    var index: nat := 0;
    assert pattern[..patternIndex] == [];
    assert Prepend([], Unescaped(s, size, 0)) == Unescaped(s, size, 0) by {
      if Unescaped(s, size, 0).Ok? {
        assert [] + Unescaped(s, size, 0).value == Unescaped(s, size, 0).value;
      }
    }
    while index < size - 1
      invariant patternIndex <= index <= size
      invariant Prepend(pattern[..patternIndex], Unescaped(s, size, index)) == Unescaped(s, size, 0)
      decreases size - index
    {
      var step := NextPatternByte(s, size, index);
      if step.Err? {
        return Err(step.error);
      }
      ghost var before := pattern[..patternIndex];
      pattern[patternIndex] := step.value.0;
      index := step.value.1;
      PrependPrepend(before, [step.value.0], Unescaped(s, size, index));
      assert pattern[..patternIndex + 1] == before + [step.value.0];
      patternIndex := patternIndex + 1;
    }
    assert Unescaped(s, size, index) == Ok([]);
    assert pattern[..patternIndex] + [] == pattern[..patternIndex];
    return Ok(pattern[..patternIndex]);
  }

  /** The lower-case hexadecimal digit of `n`. */
  function HexDigit(n: nat): (c: byte)
    requires n < 16
    ensures HexValue(c) == Some(n)
  {
    if n < 10 then ZERO + n else 0x61 + n - 10
  }

  /** A pattern written with every byte as a `\xHH` escape. */
  function HexEscaped(pattern: seq<byte>): (text: seq<byte>)
    ensures |text| == 4 * |pattern|
  {
    if pattern == [] then []
    else [BACKSLASH, LOWER_X, HexDigit(pattern[0] / 16), HexDigit(pattern[0] % 16)] + HexEscaped(pattern[1..])
  }

  /** A string of `\xHH` escapes ended by a NUL converts back to the pattern it escapes. */
  lemma {:induction false} HexEscapedRoundTrip(s: seq<byte>, size: nat, i: nat, pattern: seq<byte>)
    requires 0 < size <= |s| && i + 4 * |pattern| == size - 1
    requires s[i..size - 1] == HexEscaped(pattern)
    ensures Unescaped(s, size, i) == Ok(pattern)
    decreases |pattern|
  {
    if pattern != [] {
      var text := HexEscaped(pattern);
      assert s[i] == text[0] && s[i + 1] == text[1] && s[i + 2] == text[2] && s[i + 3] == text[3];
      var next: nat := i + 4;
      assert Escape(s, size, i) == Ok((pattern[0], next));
      assert s[i + 4..size - 1] == text[4..];
      HexEscapedRoundTrip(s, size, i + 4, pattern[1..]);
      assert [pattern[0]] + pattern[1..] == pattern;
    }
  }

  /** A string without a backslash converts to its bytes before the last one, NULs included. */
  lemma {:induction false} PlainRoundTrip(s: seq<byte>, size: nat, i: nat)
    requires 0 < size <= |s| && i <= size - 1
    requires forall k | i <= k < size - 1 :: s[k] != BACKSLASH
    ensures Unescaped(s, size, i) == Ok(s[i..size - 1])
    decreases size - i
  {
    if i < size - 1 {
      PlainRoundTrip(s, size, i + 1);
      assert [s[i]] + s[i + 1..size - 1] == s[i..size - 1];
    }
  }

  /**
    * A backslash followed by a byte that names no escape, or by the NUL at
    * the end of the string, makes the conversion fail, whatever came before.
    */
  lemma {:induction false} UnknownEscapeFails(s: seq<byte>, size: nat, i: nat, at: nat)
    requires 0 < size <= |s| && i <= at < size - 1
    requires forall k | i <= k < at :: s[k] != BACKSLASH
    requires s[at] == BACKSLASH && SimpleEscape(s[at + 1]).None? && s[at + 1] != LOWER_X
    ensures Unescaped(s, size, i) == Err(ValueOutOfBounds)
    decreases at - i
  {
    if i < at {
      UnknownEscapeFails(s, size, i + 1, at);
    }
  }

  /** `\x` not followed by two hexadecimal digits stands for a backslash, and the `x` is decoded next. */
  lemma BareHexEscape(s: seq<byte>, size: nat, i: nat)
    requires 0 < size <= |s| && i + 3 < size
    requires s[i] == BACKSLASH && s[i + 1] == LOWER_X && (HexValue(s[i + 2]).None? || HexValue(s[i + 3]).None?)
    ensures Unescaped(s, size, i) == Prepend([BACKSLASH], Unescaped(s, size, i + 2))
  {
  }

  // ---------------------------------------------------------------------
  // Definition lines
  // ---------------------------------------------------------------------

  /** The byte classes the parts of a definition line are made of. */
  datatype CharClass = IdentifierChar | Blank | Digit | PatternChar

  predicate InClass(b: byte, kind: CharClass) {
    match kind
    case IdentifierChar => (0x61 <= b <= 0x7A) || (0x41 <= b <= 0x5A) || IsDigit(b) || b == 0x5F
    case Blank => b == SPACE || b == TAB
    case Digit => IsDigit(b)
    case PatternChar => b != SPACE && b != LF && b != CR && b != TAB
  }

  /**
    * The index of the first byte from `from` on that is not in `kind`. No
    * class holds the line feed at `stop`, so a span never runs past it.
    */
  function SpanEnd(buffer: seq<byte>, from: nat, stop: nat, kind: CharClass): (end: nat)
    requires from <= stop < |buffer| && buffer[stop] == LF
    ensures from <= end <= stop
    ensures forall k | from <= k < end :: InClass(buffer[k], kind)
    ensures !InClass(buffer[end], kind)
    decreases stop - from
  {
    if !InClass(buffer[from], kind) then from else SpanEnd(buffer, from + 1, stop, kind)
  }

  /** `SpanEnd` is the first byte not in the class. */
  lemma {:induction false} SpanEndAt(buffer: seq<byte>, from: nat, stop: nat, kind: CharClass, end: nat)
    requires from <= end <= stop < |buffer| && buffer[stop] == LF
    requires forall k | from <= k < end :: InClass(buffer[k], kind)
    requires !InClass(buffer[end], kind)
    ensures SpanEnd(buffer, from, stop, kind) == end
    decreases end - from
  {
    if from < end {
      SpanEndAt(buffer, from + 1, stop, kind, end);
    }
  }

  /** A line that is empty, ends in a carriage return or is a comment is ignored. */
  predicate IsSkipped(first: byte) {
    first == LF || first == CR || first == HASH
  }

  /**
    * Where the parts of the definition line from `lineOffset` to the line
    * feed at `bufferOffset` end: the identifier, the blanks after it, the
    * optional sign and the digits of the offset, the blanks after those,
    * and the pattern.
    */
  datatype Layout = Layout(identifierEnd: nat, offsetStart: nat, offsetEnd: nat, patternStart: nat, patternEnd: nat)

  function LineLayout(buffer: seq<byte>, lineOffset: nat, bufferOffset: nat): (l: Layout)
    requires lineOffset <= bufferOffset < |buffer| && buffer[bufferOffset] == LF
    ensures lineOffset <= l.identifierEnd <= l.offsetStart <= l.offsetEnd <= l.patternStart <= l.patternEnd <= bufferOffset
  {
    LayoutAfter(buffer, SpanEnd(buffer, lineOffset, bufferOffset, IdentifierChar), bufferOffset)
  }

  /** The layout of the rest of a line whose identifier ends at `identifierEnd`. */
  function LayoutAfter(buffer: seq<byte>, identifierEnd: nat, bufferOffset: nat): (l: Layout)
    requires identifierEnd <= bufferOffset < |buffer| && buffer[bufferOffset] == LF
    ensures l.identifierEnd == identifierEnd
    ensures identifierEnd <= l.offsetStart <= l.offsetEnd <= l.patternStart <= l.patternEnd <= bufferOffset
  {
    var offsetStart := SpanEnd(buffer, identifierEnd, bufferOffset, Blank);
    var digitsStart := if buffer[offsetStart] == MINUS || buffer[offsetStart] == PLUS then offsetStart + 1 else offsetStart;
    var offsetEnd := SpanEnd(buffer, digitsStart, bufferOffset, Digit);
    var patternStart := SpanEnd(buffer, offsetEnd, bufferOffset, Blank);
    Layout(identifierEnd, offsetStart, offsetEnd, patternStart, SpanEnd(buffer, patternStart, bufferOffset, PatternChar))
  }

  /** The line with a NUL written after its identifier, after its offset and after its pattern, in that order. */
  function WrittenLine(buffer: seq<byte>, l: Layout): (written: seq<byte>)
    requires l.identifierEnd <= l.offsetEnd <= l.patternEnd < |buffer|
    ensures |written| == |buffer|
  {
    buffer[l.identifierEnd := NUL][l.offsetEnd := NUL][l.patternEnd := NUL]
  }

  /**
    * A signature definition: the identifier with its terminating NUL, the
    * offset of the pattern, the pattern, and the flag saying which end of
    * the data the offset is relative to.
    */
  datatype Definition = Definition(identifier: seq<byte>, patternOffset: nat, pattern: seq<byte>, flags: bv32)

  /** The parts of a layout lie in order on the line that starts at `lineOffset` in `buffer`. */
  predicate Ordered(buffer: seq<byte>, lineOffset: nat, l: Layout) {
    lineOffset <= l.identifierEnd <= l.offsetStart <= l.offsetEnd <= l.patternStart <= l.patternEnd < |buffer|
  }

  /**
    * The definition made of an identifier and the outcomes of converting
    * an offset string and a pattern string: a failed conversion is a failed
    * copy; a negative offset is relative to the end of the data and is
    * stored negated, any other relative to the start.
    */
  function Assembled(identifier: seq<byte>, offset: Result<int>, pattern: Result<seq<byte>>): Result<Option<Definition>> {
    if offset.Err? || pattern.Err? then Err(OperationFailed)
    else if offset.value < 0 then Ok(Some(Definition(identifier, -offset.value, pattern.value, FLAG_OFFSET_RELATIVE_FROM_END)))
    else Ok(Some(Definition(identifier, offset.value, pattern.value, FLAG_OFFSET_RELATIVE_FROM_START)))
  }

  /** The definition a line with its NULs written holds. */
  function DefinitionIn(written: seq<byte>, lineOffset: nat, l: Layout): Result<Option<Definition>>
    requires Ordered(written, lineOffset, l)
  {
    Assembled(written[lineOffset..l.identifierEnd + 1],
              ParsedOffset(written[l.offsetStart..], l.offsetEnd - l.offsetStart + 1),
              Unescaped(written[l.patternStart..], l.patternEnd - l.patternStart + 1, 0))
  }

  /**
    * The definition on the line from `lineOffset` to the line feed at
    * `bufferOffset` (the body of the line loop of
    * `read_signature_definitions`): none for a skipped line, otherwise the
    * definition the line holds once its three NULs are written.
    */
  function LineDefinition(buffer: seq<byte>, lineOffset: nat, bufferOffset: nat): Result<Option<Definition>>
    requires lineOffset <= bufferOffset < |buffer| && buffer[bufferOffset] == LF
  {
    if IsSkipped(buffer[lineOffset]) then Ok(None)
    else
      var l := LineLayout(buffer, lineOffset, bufferOffset);
      DefinitionIn(WrittenLine(buffer, l), lineOffset, l)
  }

  /** Advances past the bytes of `kind` from `from` on, as each scanning loop of the line parser does. */
  method SkipClass(buffer: array<byte>, from: nat, stop: nat, kind: CharClass) returns (end: nat)
    requires from <= stop < buffer.Length && buffer[stop] == LF
    ensures end == SpanEnd(buffer[..], from, stop, kind)
  {
    end := from;
    while InClass(buffer[end], kind)
      invariant from <= end <= stop
      invariant forall k | from <= k < end :: InClass(buffer[k], kind)
      decreases stop - end
    {
      end := end + 1;
    }
    SpanEndAt(buffer[..], from, stop, kind, end);
  }

  /** Scans the parts of the definition line from `lineOffset` to the line feed at `bufferOffset`. */
  method ScanLayout(buffer: array<byte>, lineOffset: nat, bufferOffset: nat) returns (l: Layout)
    requires lineOffset <= bufferOffset < buffer.Length && buffer[bufferOffset] == LF
    ensures l == LineLayout(buffer[..], lineOffset, bufferOffset)
  {
    var identifierEnd := SkipClass(buffer, lineOffset, bufferOffset, IdentifierChar);
    var offsetStart := SkipClass(buffer, identifierEnd, bufferOffset, Blank);
    var digitsStart := offsetStart;
    if buffer[offsetStart] == MINUS || buffer[offsetStart] == PLUS {
      digitsStart := offsetStart + 1;
    }
    var offsetEnd := SkipClass(buffer, digitsStart, bufferOffset, Digit);
    var patternStart := SkipClass(buffer, offsetEnd, bufferOffset, Blank);
    var patternEnd := SkipClass(buffer, patternStart, bufferOffset, PatternChar);
    l := Layout(identifierEnd, offsetStart, offsetEnd, patternStart, patternEnd);
  }

  /**
    * Parses the definition line from `lineOffset` to the line feed at
    * `bufferOffset` in place: the NULs that end its identifier, offset and
    * pattern are written into the buffer, and the offset and pattern
    * strings are converted from there.
    */
  method ParseDefinition(buffer: array<byte>, lineOffset: nat, bufferOffset: nat) returns (r: Result<Option<Definition>>)
    requires lineOffset <= bufferOffset < buffer.Length && buffer[bufferOffset] == LF
    modifies buffer
    ensures r == LineDefinition(old(buffer[..]), lineOffset, bufferOffset)
    ensures buffer[..] == if IsSkipped(old(buffer[lineOffset])) then old(buffer[..])
                          else WrittenLine(old(buffer[..]), LineLayout(old(buffer[..]), lineOffset, bufferOffset))
  {
    if buffer[lineOffset] == LF || buffer[lineOffset] == CR || buffer[lineOffset] == HASH {
      return Ok(None);
    }
    ghost var original := buffer[..];
    var layout := ScanLayout(buffer, lineOffset, bufferOffset);
    buffer[layout.identifierEnd] := NUL;
    buffer[layout.offsetEnd] := NUL;
    buffer[layout.patternEnd] := NUL;
    assert buffer[..] == WrittenLine(original, layout);
    r := ConvertDefinition(buffer[..], lineOffset, layout);
  }

  /** Converts the offset and pattern strings of a line whose NULs are written, and assembles the definition. */
  method ConvertDefinition(written: seq<byte>, lineOffset: nat, l: Layout) returns (r: Result<Option<Definition>>)
    requires Ordered(written, lineOffset, l)
    ensures r == DefinitionIn(written, lineOffset, l)
  {
    var offset := CopyStringToOffset(written[l.offsetStart..], l.offsetEnd - l.offsetStart + 1);
    var pattern := CopyStringToPattern(written[l.patternStart..], l.patternEnd - l.patternStart + 1);
    var identifier := written[lineOffset..l.identifierEnd + 1];
    if offset.Err? || pattern.Err? {
      r := Err(OperationFailed);
    } else if offset.value < 0 {
      r := Ok(Some(Definition(identifier, -offset.value, pattern.value, FLAG_OFFSET_RELATIVE_FROM_END)));
    } else {
      r := Ok(Some(Definition(identifier, offset.value, pattern.value, FLAG_OFFSET_RELATIVE_FROM_START)));
    }
    assert r == Assembled(identifier, offset, pattern);
  }

  /** Every byte of a `\xHH`-escaped pattern can be part of a pattern string on a line. */
  lemma {:induction false} HexEscapedPatternChars(pattern: seq<byte>)
    ensures forall k | 0 <= k < |HexEscaped(pattern)| :: InClass(HexEscaped(pattern)[k], PatternChar)
  {
    if pattern != [] {
      HexEscapedPatternChars(pattern[1..]);
      var text := HexEscaped(pattern);
      forall k | 0 <= k < |text|
        ensures InClass(text[k], PatternChar)
      {
        if k >= 4 {
          assert text[k] == HexEscaped(pattern[1..])[k - 4];
        }
      }
    }
  }

  /** The text of an offset as a sign flag and its decimal digits. */
  function SignedText(negative: bool, digits: seq<byte>): (text: seq<byte>)
    ensures |text| == |digits| + (if negative then 1 else 0)
  {
    (if negative then [MINUS] else []) + digits
  }

  /**
    * Decimal digits, at least one and at most as many as an offset string
    * may have, whose value an off64_t holds.
    */
  predicate OffsetDigitsText(digits: seq<byte>) {
    && 0 < |digits| <= MAXIMUM_STRING_INDEX + 1
    && (forall k | 0 <= k < |digits| :: IsDigit(digits[k]))
    && DecimalValue(digits) <= INT64_MAX
  }

  /**
    * A definition line as a definitions file writes it: the identifier, a
    * space, the offset, a space, the pattern with every byte escaped, and a
    * line feed.
    */
  function FormatLine(identifier: seq<byte>, offsetText: seq<byte>, pattern: seq<byte>): (line: seq<byte>)
    ensures |line| == |identifier| + |offsetText| + 4 * |pattern| + 3
  {
    identifier + [SPACE] + offsetText + [SPACE] + HexEscaped(pattern) + [LF]
  }

  /**
    * The definition a formatted line holds: the offset is the value of its
    * digits, relative to the end of the data when it has a minus sign and
    * is not zero, and relative to the start otherwise.
    */
  function FormattedDefinition(identifier: seq<byte>, negative: bool, digits: seq<byte>, pattern: seq<byte>): Definition
    requires OffsetDigitsText(digits)
  {
    if negative && DecimalValue(digits) > 0 then Definition(identifier + [NUL], DecimalValue(digits), pattern, FLAG_OFFSET_RELATIVE_FROM_END)
    else Definition(identifier + [NUL], DecimalValue(digits), pattern, FLAG_OFFSET_RELATIVE_FROM_START)
  }

  /**
    * The layout of a line whose identifier ends at a space at
    * `identifierEnd`, whose offset (a minus sign when `negative`, then
    * digits) ends at a space at `offsetEnd`, and whose pattern runs up to
    * the line feed at `bufferOffset`.
    */
  lemma LayoutOfParts(buffer: seq<byte>, lineOffset: nat, identifierEnd: nat, offsetEnd: nat, bufferOffset: nat, negative: bool)
    requires lineOffset <= identifierEnd < offsetEnd < bufferOffset < |buffer| && buffer[bufferOffset] == LF
    requires forall k | lineOffset <= k < identifierEnd :: InClass(buffer[k], IdentifierChar)
    requires buffer[identifierEnd] == SPACE && buffer[offsetEnd] == SPACE
    requires identifierEnd + 1 + (if negative then 1 else 0) < offsetEnd
    requires if negative then buffer[identifierEnd + 1] == MINUS else IsDigit(buffer[identifierEnd + 1])
    requires forall k | identifierEnd + 1 + (if negative then 1 else 0) <= k < offsetEnd :: IsDigit(buffer[k])
    requires forall k | offsetEnd < k < bufferOffset :: InClass(buffer[k], PatternChar)
    ensures LineLayout(buffer, lineOffset, bufferOffset) == Layout(identifierEnd, identifierEnd + 1, offsetEnd, offsetEnd + 1, bufferOffset)
  {
    SpanEndAt(buffer, lineOffset, bufferOffset, IdentifierChar, identifierEnd);
    LayoutAfterParts(buffer, identifierEnd, offsetEnd, bufferOffset, negative);
  }

  /** `LayoutOfParts` after the identifier. */
  lemma LayoutAfterParts(buffer: seq<byte>, identifierEnd: nat, offsetEnd: nat, bufferOffset: nat, negative: bool)
    requires identifierEnd < offsetEnd < bufferOffset < |buffer| && buffer[bufferOffset] == LF
    requires buffer[identifierEnd] == SPACE && buffer[offsetEnd] == SPACE
    requires identifierEnd + 1 + (if negative then 1 else 0) < offsetEnd
    requires if negative then buffer[identifierEnd + 1] == MINUS else IsDigit(buffer[identifierEnd + 1])
    requires forall k | identifierEnd + 1 + (if negative then 1 else 0) <= k < offsetEnd :: IsDigit(buffer[k])
    requires forall k | offsetEnd < k < bufferOffset :: InClass(buffer[k], PatternChar)
    ensures LayoutAfter(buffer, identifierEnd, bufferOffset) == Layout(identifierEnd, identifierEnd + 1, offsetEnd, offsetEnd + 1, bufferOffset)
  {
    var digitsStart := identifierEnd + 1 + (if negative then 1 else 0);
    assert SpanEnd(buffer, identifierEnd, bufferOffset, Blank) == identifierEnd + 1 by {
      SpanEndAt(buffer, identifierEnd, bufferOffset, Blank, identifierEnd + 1);
    }
    assert SpanEnd(buffer, digitsStart, bufferOffset, Digit) == offsetEnd by {
      SpanEndAt(buffer, digitsStart, bufferOffset, Digit, offsetEnd);
    }
    assert SpanEnd(buffer, offsetEnd, bufferOffset, Blank) == offsetEnd + 1 by {
      SpanEndAt(buffer, offsetEnd, bufferOffset, Blank, offsetEnd + 1);
    }
    SpanEndAt(buffer, offsetEnd + 1, bufferOffset, PatternChar, bufferOffset);
  }


  /** Where the three parts of a line separated by two spaces and ended by a line feed lie in the buffer. */
  lemma PlacedParts(buffer: seq<byte>, lineOffset: nat, first: seq<byte>, second: seq<byte>, third: seq<byte>)
    requires lineOffset + |first| + |second| + |third| + 3 <= |buffer|
    requires buffer[lineOffset..lineOffset + |first| + |second| + |third| + 3] == first + [SPACE] + second + [SPACE] + third + [LF]
    ensures var a := lineOffset + |first|;
            var b := a + 1 + |second|;
            var c := b + 1 + |third|;
            && buffer[lineOffset..a] == first && buffer[a] == SPACE
            && buffer[a + 1..b] == second && buffer[b] == SPACE
            && buffer[b + 1..c] == third && buffer[c] == LF
  {
    var line := first + [SPACE] + second + [SPACE] + third + [LF];
    var a := |first|;
    var b := a + 1 + |second|;
    var c := b + 1 + |third|;
    var window := buffer[lineOffset..lineOffset + |line|];
    assert line[..a] == first;
    assert line[a + 1..b] == second;
    assert line[b + 1..c] == third;
    WindowSlice(buffer, lineOffset, lineOffset + |line|, 0, a);
    WindowSlice(buffer, lineOffset, lineOffset + |line|, a + 1, b);
    WindowSlice(buffer, lineOffset, lineOffset + |line|, b + 1, c);
    assert buffer[lineOffset + a] == window[a] == line[a];
    assert buffer[lineOffset + b] == window[b] == line[b];
    assert buffer[lineOffset + c] == window[c] == line[c];
  }

  /** A slice of a window of the buffer is the matching slice of the buffer. */
  lemma WindowSlice(buffer: seq<byte>, lo: nat, hi: nat, i: nat, j: nat)
    requires lo <= hi <= |buffer| && i <= j <= hi - lo
    ensures buffer[lo..hi][i..j] == buffer[lo + i..lo + j]
  {
    forall k | 0 <= k < j - i
      ensures buffer[lo..hi][i..j][k] == buffer[lo + i..lo + j][k]
    {
    }
  }

  /**
    * What the three NULs leave of the identifier, the offset string and the
    * pattern string, when a separator lies between each two of them.
    */
  lemma WrittenParts(buffer: seq<byte>, lineOffset: nat, l: Layout)
    requires Ordered(buffer, lineOffset, l) && l.identifierEnd < l.offsetStart && l.offsetEnd < l.patternStart
    ensures var written := WrittenLine(buffer, l);
            && written[lineOffset..l.identifierEnd + 1] == buffer[lineOffset..l.identifierEnd] + [NUL]
            && written[l.offsetStart..][..l.offsetEnd - l.offsetStart + 1] == buffer[l.offsetStart..l.offsetEnd] + [NUL]
            && written[l.patternStart..][0..l.patternEnd - l.patternStart] == buffer[l.patternStart..l.patternEnd]
  {
    var written := WrittenLine(buffer, l);
    assert written[lineOffset..l.identifierEnd + 1] == buffer[lineOffset..l.identifierEnd] + [NUL];
    assert written[l.offsetStart..][..l.offsetEnd - l.offsetStart + 1] == buffer[l.offsetStart..l.offsetEnd] + [NUL];
    assert written[l.patternStart..][0..l.patternEnd - l.patternStart] == buffer[l.patternStart..l.patternEnd];
  }

  /** The offset string of a line that holds a sign flag and digits converts to their signed value. */
  lemma OffsetOfParts(buffer: seq<byte>, lineOffset: nat, l: Layout, negative: bool, digits: seq<byte>)
    requires OffsetDigitsText(digits)
    requires Ordered(buffer, lineOffset, l) && l.identifierEnd < l.offsetStart && l.offsetEnd < l.patternStart
    requires buffer[l.offsetStart..l.offsetEnd] == SignedText(negative, digits)
    ensures ParsedOffset(WrittenLine(buffer, l)[l.offsetStart..], l.offsetEnd - l.offsetStart + 1) ==
            if negative then Ok(-(DecimalValue(digits) as int)) else Ok(DecimalValue(digits))
  {
    WrittenParts(buffer, lineOffset, l);
    SignedTextThenNul(WrittenLine(buffer, l)[l.offsetStart..], l.offsetEnd - l.offsetStart + 1, negative, digits);
  }

  /** An offset string made of an optional minus sign, digits and a NUL converts to the signed value of the digits. */
  lemma SignedTextThenNul(s: seq<byte>, size: nat, negative: bool, digits: seq<byte>)
    requires OffsetDigitsText(digits)
    requires size == |SignedText(negative, digits)| + 1 <= |s|
    requires s[..size] == SignedText(negative, digits) + [NUL]
    ensures ParsedOffset(s, size) == if negative then Ok(-(DecimalValue(digits) as int)) else Ok(DecimalValue(digits))
  {
    var sign := if negative then 1 else 0;
    assert s[0] == (SignedText(negative, digits) + [NUL])[0];
    assert SignLength(s[0]) == sign;
    assert s[sign..sign + |digits|] == digits by {
      assert s[sign..sign + |digits|] == s[..size][sign..sign + |digits|];
      assert (SignedText(negative, digits) + [NUL])[sign..sign + |digits|] == digits;
    }
    assert s[sign + |digits|] == s[..size][size - 1];
    DigitsThenNul(s, size, digits);
  }

  /** The pattern string of a line that holds a `\xHH`-escaped pattern converts back to the pattern. */
  lemma PatternOfParts(buffer: seq<byte>, lineOffset: nat, l: Layout, pattern: seq<byte>)
    requires Ordered(buffer, lineOffset, l) && l.identifierEnd < l.offsetStart && l.offsetEnd < l.patternStart
    requires buffer[l.patternStart..l.patternEnd] == HexEscaped(pattern)
    ensures Unescaped(WrittenLine(buffer, l)[l.patternStart..], l.patternEnd - l.patternStart + 1, 0) == Ok(pattern)
  {
    WrittenParts(buffer, lineOffset, l);
    HexEscapedRoundTrip(WrittenLine(buffer, l)[l.patternStart..], l.patternEnd - l.patternStart + 1, 0, pattern);
  }

  /** The identifier of a line keeps its bytes and gains the NUL written after it. */
  lemma IdentifierOfParts(buffer: seq<byte>, lineOffset: nat, l: Layout, identifier: seq<byte>)
    requires Ordered(buffer, lineOffset, l) && l.identifierEnd < l.offsetStart && l.offsetEnd < l.patternStart
    requires buffer[lineOffset..l.identifierEnd] == identifier
    ensures WrittenLine(buffer, l)[lineOffset..l.identifierEnd + 1] == identifier + [NUL]
  {
    WrittenParts(buffer, lineOffset, l);
  }

  /**
    * The definition a line holds once its NULs are written, when its
    * identifier, offset text and escaped pattern lie between the two
    * spaces and the line feed of `l`.
    */
  lemma DefinitionOfParts(buffer: seq<byte>, lineOffset: nat, l: Layout, identifier: seq<byte>,
                          negative: bool, digits: seq<byte>, pattern: seq<byte>)
    requires OffsetDigitsText(digits)
    requires Ordered(buffer, lineOffset, l) && l.identifierEnd < l.offsetStart && l.offsetEnd < l.patternStart
    requires buffer[lineOffset..l.identifierEnd] == identifier
    requires buffer[l.offsetStart..l.offsetEnd] == SignedText(negative, digits)
    requires buffer[l.patternStart..l.patternEnd] == HexEscaped(pattern)
    ensures DefinitionIn(WrittenLine(buffer, l), lineOffset, l) == Ok(Some(FormattedDefinition(identifier, negative, digits, pattern)))
  {
    var name, offset, converted := ConvertedParts(buffer, lineOffset, l, identifier, negative, digits, pattern);
    AssembledFormatted(identifier, negative, digits, pattern);
  }

  /** The three conversions `DefinitionIn` assembles, on a line whose parts lie where `l` says. */
  lemma ConvertedParts(buffer: seq<byte>, lineOffset: nat, l: Layout, identifier: seq<byte>,
                       negative: bool, digits: seq<byte>, pattern: seq<byte>)
    returns (name: seq<byte>, offset: Result<int>, converted: Result<seq<byte>>)
    requires OffsetDigitsText(digits)
    requires Ordered(buffer, lineOffset, l) && l.identifierEnd < l.offsetStart && l.offsetEnd < l.patternStart
    requires buffer[lineOffset..l.identifierEnd] == identifier
    requires buffer[l.offsetStart..l.offsetEnd] == SignedText(negative, digits)
    requires buffer[l.patternStart..l.patternEnd] == HexEscaped(pattern)
    ensures DefinitionIn(WrittenLine(buffer, l), lineOffset, l) == Assembled(name, offset, converted)
    ensures name == identifier + [NUL]
    ensures offset == if negative then Ok(-(DecimalValue(digits) as int)) else Ok(DecimalValue(digits))
    ensures converted == Ok(pattern)
  {
    var written := WrittenLine(buffer, l);
    name := written[lineOffset..l.identifierEnd + 1];
    offset := ParsedOffset(written[l.offsetStart..], l.offsetEnd - l.offsetStart + 1);
    converted := Unescaped(written[l.patternStart..], l.patternEnd - l.patternStart + 1, 0);
    IdentifierOfParts(buffer, lineOffset, l, identifier);
    OffsetOfParts(buffer, lineOffset, l, negative, digits);
    PatternOfParts(buffer, lineOffset, l, pattern);
  }

  /** A signed offset and a pattern that both converted assemble into the definition they were formatted from. */
  lemma AssembledFormatted(identifier: seq<byte>, negative: bool, digits: seq<byte>, pattern: seq<byte>)
    requires OffsetDigitsText(digits)
    ensures Assembled(identifier + [NUL], if negative then Ok(-(DecimalValue(digits) as int)) else Ok(DecimalValue(digits)), Ok(pattern))
            == Ok(Some(FormattedDefinition(identifier, negative, digits, pattern)))
  {
  }



  /**
    * A definition line as `FormatLine` writes it reads back as the
    * definition it was written from: the identifier gains its NUL, the
    * digits give the offset, and the pattern is decoded byte for byte.
    */
  lemma FormattedLineRoundTrip(buffer: seq<byte>, lineOffset: nat, identifier: seq<byte>,
                               negative: bool, digits: seq<byte>, pattern: seq<byte>)
    requires forall k | 0 <= k < |identifier| :: InClass(identifier[k], IdentifierChar)
    requires OffsetDigitsText(digits)
    requires LaidOutAt(buffer, lineOffset, identifier, SignedText(negative, digits), HexEscaped(pattern))
    ensures var bufferOffset := LineEndOf(lineOffset, identifier, SignedText(negative, digits), HexEscaped(pattern));
            LineDefinition(buffer, lineOffset, bufferOffset) == Ok(Some(FormattedDefinition(identifier, negative, digits, pattern)))
  {
    var bufferOffset := LineEndOf(lineOffset, identifier, SignedText(negative, digits), HexEscaped(pattern));
    var l := LaidOutLayout(buffer, lineOffset, identifier, negative, digits, pattern);
    LineOfParts(buffer, lineOffset, bufferOffset, l, identifier, negative, digits, pattern);
  }

  /** The layout the line parser finds on a line laid out from an identifier, an offset text and an escaped pattern. */
  lemma LaidOutLayout(buffer: seq<byte>, lineOffset: nat, identifier: seq<byte>,
                      negative: bool, digits: seq<byte>, pattern: seq<byte>) returns (l: Layout)
    requires forall k | 0 <= k < |identifier| :: InClass(identifier[k], IdentifierChar)
    requires OffsetDigitsText(digits)
    requires LaidOutAt(buffer, lineOffset, identifier, SignedText(negative, digits), HexEscaped(pattern))
    ensures var bufferOffset := LineEndOf(lineOffset, identifier, SignedText(negative, digits), HexEscaped(pattern));
            && lineOffset <= bufferOffset < |buffer| && buffer[bufferOffset] == LF && !IsSkipped(buffer[lineOffset])
            && LineLayout(buffer, lineOffset, bufferOffset) == l
            && l.identifierEnd < l.offsetStart && l.offsetEnd < l.patternStart
            && buffer[lineOffset..l.identifierEnd] == identifier
            && buffer[l.offsetStart..l.offsetEnd] == SignedText(negative, digits)
            && buffer[l.patternStart..l.patternEnd] == HexEscaped(pattern)
  {
    var identifierEnd := lineOffset + |identifier|;
    var offsetEnd := identifierEnd + 1 + |SignedText(negative, digits)|;
    var bufferOffset := LineEndOf(lineOffset, identifier, SignedText(negative, digits), HexEscaped(pattern));
    l := Layout(identifierEnd, identifierEnd + 1, offsetEnd, offsetEnd + 1, bufferOffset);
    SeparatedParts(buffer, lineOffset, identifierEnd, offsetEnd, bufferOffset, identifier, negative, digits, pattern);
    assert !IsSkipped(buffer[lineOffset]) by {
      if identifier != [] {
        assert buffer[lineOffset] == buffer[lineOffset..identifierEnd][0];
      }
    }
  }

  /** Where the line feed ends a line laid out from an identifier, an offset text and an escaped pattern. */
  function LineEndOf(lineOffset: nat, identifier: seq<byte>, text: seq<byte>, escaped: seq<byte>): nat {
    lineOffset + |identifier| + 1 + |text| + 1 + |escaped|
  }

  /**
    * The identifier, the offset text and the escaped pattern lie from
    * `lineOffset` on, separated by single spaces and ended by a line feed.
    */
  predicate LaidOutAt(buffer: seq<byte>, lineOffset: nat, identifier: seq<byte>, text: seq<byte>, escaped: seq<byte>) {
    var identifierEnd := lineOffset + |identifier|;
    var offsetEnd := identifierEnd + 1 + |text|;
    var lineEnd := LineEndOf(lineOffset, identifier, text, escaped);
    && lineEnd < |buffer|
    && buffer[lineOffset..identifierEnd] == identifier && buffer[identifierEnd] == SPACE
    && buffer[identifierEnd + 1..offsetEnd] == text && buffer[offsetEnd] == SPACE
    && buffer[offsetEnd + 1..lineEnd] == escaped && buffer[lineEnd] == LF
  }

  /** A line written by `FormatLine` is laid out as the line parser expects, wherever it lies in the buffer. */
  lemma FormatLineLaidOut(buffer: seq<byte>, lineOffset: nat, identifier: seq<byte>, text: seq<byte>, pattern: seq<byte>)
    requires lineOffset + |FormatLine(identifier, text, pattern)| <= |buffer|
    requires buffer[lineOffset..lineOffset + |FormatLine(identifier, text, pattern)|] == FormatLine(identifier, text, pattern)
    ensures LaidOutAt(buffer, lineOffset, identifier, text, HexEscaped(pattern))
  {
    PlacedParts(buffer, lineOffset, identifier, text, HexEscaped(pattern));
  }

  /** The definition on a line that is not skipped, whose parts lie where its layout says. */
  lemma LineOfParts(buffer: seq<byte>, lineOffset: nat, bufferOffset: nat, l: Layout, identifier: seq<byte>,
                    negative: bool, digits: seq<byte>, pattern: seq<byte>)
    requires OffsetDigitsText(digits)
    requires lineOffset <= bufferOffset < |buffer| && buffer[bufferOffset] == LF && !IsSkipped(buffer[lineOffset])
    requires LineLayout(buffer, lineOffset, bufferOffset) == l
    requires l.identifierEnd < l.offsetStart && l.offsetEnd < l.patternStart
    requires buffer[lineOffset..l.identifierEnd] == identifier
    requires buffer[l.offsetStart..l.offsetEnd] == SignedText(negative, digits)
    requires buffer[l.patternStart..l.patternEnd] == HexEscaped(pattern)
    ensures LineDefinition(buffer, lineOffset, bufferOffset) == Ok(Some(FormattedDefinition(identifier, negative, digits, pattern)))
  {
    LineDefinitionOfLayout(buffer, lineOffset, bufferOffset, l);
    DefinitionOfParts(buffer, lineOffset, l, identifier, negative, digits, pattern);
  }

  /** The bytes of the three parts of a formatted line are in the classes their spans take. */
  lemma SeparatedParts(buffer: seq<byte>, lineOffset: nat, identifierEnd: nat, offsetEnd: nat, bufferOffset: nat,
                       identifier: seq<byte>, negative: bool, digits: seq<byte>, pattern: seq<byte>)
    requires forall k | 0 <= k < |identifier| :: InClass(identifier[k], IdentifierChar)
    requires OffsetDigitsText(digits)
    requires lineOffset <= identifierEnd < offsetEnd < bufferOffset < |buffer| && buffer[bufferOffset] == LF
    requires buffer[lineOffset..identifierEnd] == identifier && buffer[identifierEnd] == SPACE
    requires buffer[identifierEnd + 1..offsetEnd] == SignedText(negative, digits) && buffer[offsetEnd] == SPACE
    requires buffer[offsetEnd + 1..bufferOffset] == HexEscaped(pattern)
    ensures LineLayout(buffer, lineOffset, bufferOffset) == Layout(identifierEnd, identifierEnd + 1, offsetEnd, offsetEnd + 1, bufferOffset)
  {
    PartClasses(buffer, lineOffset, identifierEnd, offsetEnd, bufferOffset, identifier, negative, digits, pattern);
    LayoutOfParts(buffer, lineOffset, identifierEnd, offsetEnd, bufferOffset, negative);
  }

  /** The classes of the bytes of an identifier, an offset text and an escaped pattern, byte by byte. */
  lemma PartClasses(buffer: seq<byte>, lineOffset: nat, identifierEnd: nat, offsetEnd: nat, bufferOffset: nat,
                    identifier: seq<byte>, negative: bool, digits: seq<byte>, pattern: seq<byte>)
    requires forall k | 0 <= k < |identifier| :: InClass(identifier[k], IdentifierChar)
    requires OffsetDigitsText(digits)
    requires lineOffset <= identifierEnd < offsetEnd < bufferOffset < |buffer|
    requires buffer[lineOffset..identifierEnd] == identifier
    requires buffer[identifierEnd + 1..offsetEnd] == SignedText(negative, digits)
    requires buffer[offsetEnd + 1..bufferOffset] == HexEscaped(pattern)
    ensures forall k | lineOffset <= k < identifierEnd :: InClass(buffer[k], IdentifierChar)
    ensures identifierEnd + 1 + (if negative then 1 else 0) < offsetEnd
    ensures if negative then buffer[identifierEnd + 1] == MINUS else IsDigit(buffer[identifierEnd + 1])
    ensures forall k | identifierEnd + 1 + (if negative then 1 else 0) <= k < offsetEnd :: IsDigit(buffer[k])
    ensures forall k | offsetEnd < k < bufferOffset :: InClass(buffer[k], PatternChar)
  {
    var sign := if negative then 1 else 0;
    forall k | lineOffset <= k < identifierEnd
      ensures InClass(buffer[k], IdentifierChar)
    {
      assert buffer[k] == buffer[lineOffset..identifierEnd][k - lineOffset];
    }
    forall k | identifierEnd + 1 + sign <= k < offsetEnd
      ensures IsDigit(buffer[k])
    {
      assert buffer[k] == buffer[identifierEnd + 1..offsetEnd][k - identifierEnd - 1] == digits[k - identifierEnd - 1 - sign];
    }
    assert buffer[identifierEnd + 1] == buffer[identifierEnd + 1..offsetEnd][0];
    assert !negative ==> buffer[identifierEnd + 1] == digits[0];
    HexEscapedPatternChars(pattern);
    forall k | offsetEnd < k < bufferOffset
      ensures InClass(buffer[k], PatternChar)
    {
      assert buffer[k] == buffer[offsetEnd + 1..bufferOffset][k - offsetEnd - 1];
    }
  }

  /** An offset whose magnitude an off64_t holds is written as its sign and its decimal digits. */
  lemma OffsetTextDigits(offset: int)
    requires -INT64_MAX <= offset <= INT64_MAX
    ensures OffsetDigitsText(DecimalText(if offset < 0 then -offset else offset))
    ensures OffsetText(offset) == SignedText(offset < 0, DecimalText(if offset < 0 then -offset else offset))
    ensures FormattedDefinition([], offset < 0, DecimalText(if offset < 0 then -offset else offset), []).patternOffset
            == if offset < 0 then -offset else offset
    ensures FormattedDefinition([], offset < 0, DecimalText(if offset < 0 then -offset else offset), []).flags
            == if offset < 0 then FLAG_OFFSET_RELATIVE_FROM_END else FLAG_OFFSET_RELATIVE_FROM_START
  {
    DecimalTextValue(if offset < 0 then -offset else offset);
    Int64Digits(if offset < 0 then -offset else offset);
  }

  /** The definition on a line that is not skipped is the one its layout gives. */
  lemma LineDefinitionOfLayout(buffer: seq<byte>, lineOffset: nat, bufferOffset: nat, l: Layout)
    requires lineOffset <= bufferOffset < |buffer| && buffer[bufferOffset] == LF
    requires !IsSkipped(buffer[lineOffset]) && LineLayout(buffer, lineOffset, bufferOffset) == l
    ensures Ordered(buffer, lineOffset, l)
    ensures LineDefinition(buffer, lineOffset, bufferOffset) == DefinitionIn(WrittenLine(buffer, l), lineOffset, l)
  {
  }
}
