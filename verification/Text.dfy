/**
  The text helpers of eng/dev_model/dm_utils.c that topics and the shadow's key language are built on:
  the delimiter tokeniser, the bracketed-index parser, and decimal printing and reading.
  A C string is a `string` without its terminator; a (pointer, length) pair is a slice.
*/
module Text {

  datatype Option<+T> = None | Some(value: T)

  // ---------------------------------------------------------------- tokeniser

  function Count(s: string, c: char): nat {
    if s == "" then 0 else Count(s[..|s| - 1], c) + if s[|s| - 1] == c then 1 else 0
  }

  lemma {:induction false} CountPrefix(s: string, c: char, i: nat)
    requires i < |s|
    ensures Count(s[..i + 1], c) == Count(s[..i], c) + if s[i] == c then 1 else 0
  {
    assert s[..i + 1][..i] == s[..i];
  }

  lemma {:induction false} CountFree(s: string, c: char)
    requires c !in s
    ensures Count(s, c) == 0
  {
    if s != "" {
      CountFree(s[..|s| - 1], c);
    }
  }

  lemma {:induction false} CountConcat(s: string, t: string, c: char)
    ensures Count(s + t, c) == Count(s, c) + Count(t, c)
    decreases |t|
  {
    if t == "" {
      assert s + t == s;
    } else {
      assert (s + t)[..|s + t| - 1] == s + t[..|t| - 1];
      CountConcat(s, t[..|t| - 1], c);
    }
  }

  lemma {:induction false} CountMonotone(s: string, c: char, i: nat, j: nat)
    requires i <= j <= |s|
    ensures Count(s[..i], c) <= Count(s[..j], c)
    decreases j - i
  {
    if i < j {
      CountMonotone(s, c, i, j - 1);
      CountPrefix(s, c, j - 1);
    }
  }

  /** `o` is where the `index`-th delimiter of `s` stands; a delimiter in last position is never one. */
  predicate IsToken(s: string, c: char, index: nat, o: nat) {
    && o + 1 < |s|
    && s[o] == c
    && Count(s[..o], c) + 1 == index
  }

  function TokenFrom(s: string, c: char, index: nat, from: nat): (offset: Option<nat>)
    requires from <= |s|
    ensures offset.Some? ==> from <= offset.value && IsToken(s, c, index, offset.value)
    decreases |s| - from
  {
    if from == |s| then None
    else if IsToken(s, c, index, from) then Some(from)
    else TokenFrom(s, c, index, from + 1)
  }

  function Token(s: string, c: char, index: nat): (offset: Option<nat>)
    ensures offset.Some? ==> IsToken(s, c, index, offset.value)
  {
    TokenFrom(s, c, index, 0)
  }

  lemma {:induction false} TokenFromUnique(s: string, c: char, index: nat, from: nat, o: nat)
    requires from <= o && IsToken(s, c, index, o)
    ensures TokenFrom(s, c, index, from) == Some(o)
    decreases o - from
  {
    if from < o {
      if IsToken(s, c, index, from) {
        CountPrefix(s, c, from);
        CountMonotone(s, c, from + 1, o);
      }
      TokenFromUnique(s, c, index, from + 1, o);
    }
  }

  lemma {:induction false} TokenUnique(s: string, c: char, index: nat, o: nat)
    requires IsToken(s, c, index, o)
    ensures Token(s, c, index) == Some(o)
  {
    TokenFromUnique(s, c, index, 0, o);
  }

  /** dm_utils_memtok. */
  method Memtok(input: string, delimiter: char, index: nat) returns (offset: Option<nat>)
    ensures offset == Token(input, delimiter, index)
    ensures offset.Some? <==> exists o :: IsToken(input, delimiter, index, o)
  {
    var itemIndex, count := 0, 0;
    while itemIndex < |input|
      invariant 0 <= itemIndex <= |input|
      invariant itemIndex < |input| ==> count == Count(input[..itemIndex], delimiter)
      invariant Token(input, delimiter, index) == TokenFrom(input, delimiter, index, itemIndex)
      invariant forall o :: IsToken(input, delimiter, index, o) ==> itemIndex <= o
    {
      CountPrefix(input, delimiter, itemIndex);
      if input[itemIndex] == delimiter && itemIndex + 1 < |input| {
        count := count + 1;
        if count == index {
          return Some(itemIndex);
        }
      }
      itemIndex := itemIndex + 1;
    }
    return None;
  }

  /** Where the first segment of a dotted key stops. */
  function SegmentEnd(key: string): (e: nat)
    ensures e <= |key|
    ensures e < |key| ==> e + 1 < |key| && key[e] == '.'
  {
    match Token(key, '.', 1)
    case Some(o) => o
    case None => |key|
  }

  lemma {:induction false} SegmentEndDotted(head: string, rest: string)
    requires '.' !in head && rest != ""
    ensures SegmentEnd(head + "." + rest) == |head|
  {
    var key := head + "." + rest;
    assert key[..|head|] == head;
    CountFree(head, '.');
    TokenUnique(key, '.', 1, |head|);
  }

  lemma {:induction false} SegmentEndPlain(key: string)
    requires '.' !in key
    ensures SegmentEnd(key) == |key|
  {
  }

  /** A segment that something follows holds no dot. */
  lemma {:induction false} SegmentFree(key: string)
    ensures SegmentEnd(key) < |key| ==> '.' !in key[..SegmentEnd(key)]
  {
    var d := SegmentEnd(key);
    if d < |key| && '.' in key[..d] {
      var k :| 0 <= k < d && key[k] == '.';
      CountPrefix(key, '.', k);
      CountMonotone(key, '.', k + 1, d);
    }
  }

  // ---------------------------------------------------------------- decimal text

  predicate IsDigit(c: char) { '0' <= c <= '9' }

  function DigitValue(c: char): (d: nat)
    requires IsDigit(c)
    ensures d < 10
  {
    c as int - '0' as int
  }

  function DigitChar(d: nat): (c: char)
    requires d < 10
    ensures IsDigit(c) && DigitValue(c) == d
  {
    ('0' as int + d) as char
  }

  predicate AllDigits(s: string) {
    forall i :: 0 <= i < |s| ==> IsDigit(s[i])
  }

  function Number(s: string): nat
    requires AllDigits(s)
  {
    if s == "" then 0 else Number(s[..|s| - 1]) * 10 + DigitValue(s[|s| - 1])
  }

  /** What printf's %d and %u print for a non-negative number. */
  function Decimal(n: nat): (s: string)
    ensures s != "" && AllDigits(s) && Number(s) == n
    ensures |s| > 1 ==> s[0] != '0'
  {
    if n < 10 then [DigitChar(n)]
    else
      var s := Decimal(n / 10) + [DigitChar(n % 10)];
      assert s[..|s| - 1] == Decimal(n / 10);
      s
  }

  function Pow10(k: nat): (p: nat)
    ensures p > 0
  {
    if k == 0 then 1 else 10 * Pow10(k - 1)
  }

  lemma {:induction false} NumberBound(s: string)
    requires AllDigits(s)
    ensures Number(s) < Pow10(|s|)
  {
    if s != "" {
      NumberBound(s[..|s| - 1]);
    }
  }

  lemma {:induction false} NumberLowerBound(s: string)
    requires AllDigits(s) && s != "" && s[0] != '0'
    ensures Pow10(|s| - 1) <= Number(s)
  {
    if |s| > 1 {
      NumberLowerBound(s[..|s| - 1]);
    }
  }

  lemma {:induction false} NumberConcat(s: string, t: string)
    requires AllDigits(s) && AllDigits(t)
    ensures AllDigits(s + t)
    ensures Number(s + t) == Number(s) * Pow10(|t|) + Number(t)
    decreases |t|
  {
    if t == "" {
      assert s + t == s;
    } else {
      var u := t[..|t| - 1];
      assert (s + t)[..|s + t| - 1] == s + u;
      NumberConcat(s, u);
      ShiftDigit(Number(s), Pow10(|u|), Number(u), DigitValue(t[|t| - 1]));
    }
  }

  lemma {:induction false} ShiftDigit(a: nat, b: nat, c: nat, d: nat)
    ensures (a * b + c) * 10 + d == a * (10 * b) + (c * 10 + d)
  {
  }

  lemma {:induction false} Pow10Monotone(a: nat, b: nat)
    requires a <= b
    ensures Pow10(a) <= Pow10(b)
    decreases b - a
  {
    if a < b {
      Pow10Monotone(a, b - 1);
    }
  }

  /** A number below 10^k prints in at most k characters, and conversely. */
  lemma {:induction false} DecimalLength(n: nat, k: nat)
    requires k > 0
    ensures |Decimal(n)| <= k <==> n < Pow10(k)
  {
    var s := Decimal(n);
    NumberBound(s);
    if |s| <= k {
      Pow10Monotone(|s|, k);
    } else {
      NumberLowerBound(s);
      Pow10Monotone(k, |s| - 1);
    }
  }

  function DigitPrefix(s: string): (n: nat)
    ensures n <= |s| && AllDigits(s[..n])
    ensures n < |s| ==> !IsDigit(s[n])
  {
    if s == "" || !IsDigit(s[0]) then 0
    else
      var n := 1 + DigitPrefix(s[1..]);
      assert s[..n] == [s[0]] + s[1..][..n - 1];
      n
  }

  predicate IsSpace(c: char) { c == ' ' || 9 <= c as int <= 13 }

  /** C's atoi: blanks, an optional sign, then the longest run of digits (none reads as 0). */
  function Atoi(s: string): int {
    if s != "" && IsSpace(s[0]) then Atoi(s[1..])
    else if s != "" && s[0] == '-' then -(Number(s[1..][..DigitPrefix(s[1..])]) as int)
    else if s != "" && s[0] == '+' then Number(s[1..][..DigitPrefix(s[1..])])
    else Number(s[..DigitPrefix(s)])
  }

  lemma {:induction false} AtoiDigits(s: string)
    requires AllDigits(s)
    ensures Atoi(s) == Number(s)
  {
    assert DigitPrefix(s) == |s|;
    assert s[..|s|] == s;
  }

  lemma {:induction false} DigitPrefixIs(digits: string, rest: string)
    requires AllDigits(digits) && (rest == "" || !('0' <= rest[0] <= '9'))
    ensures DigitPrefix(digits + rest) == |digits|
  {
    if digits == "" {
      assert digits + rest == rest;
    } else {
      assert (digits + rest)[1..] == digits[1..] + rest;
      DigitPrefixIs(digits[1..], rest);
    }
  }

  lemma {:induction false} AtoiSigned(sign: string, digits: string, rest: string)
    requires sign == "" || sign == "+" || sign == "-"
    requires digits != "" && AllDigits(digits) && (rest == "" || !('0' <= rest[0] <= '9'))
    ensures Atoi(sign + (digits + rest)) == if sign == "-" then -(Number(digits) as int) else Number(digits)
  {
    hide Number, DigitPrefix;
    DigitPrefixIs(digits, rest);
    var tail := digits + rest;
    assert tail[..|digits|] == digits && IsDigit(digits[0]) && tail[0] == digits[0];
    if sign == "" {
      assert sign + tail == tail;
    } else {
      assert (sign + tail)[0] == sign[0] && (sign + tail)[1..] == tail;
    }
  }

  /** Blanks, at most one sign, digits, and whatever follows them: the number with its sign. */
  lemma {:induction false} AtoiReads(blanks: string, sign: string, digits: string, rest: string)
    requires forall k :: 0 <= k < |blanks| ==> blanks[k] == ' ' || 9 <= blanks[k] as int <= 13
    requires sign == "" || sign == "+" || sign == "-"
    requires digits != "" && AllDigits(digits) && (rest == "" || !('0' <= rest[0] <= '9'))
    ensures Atoi(blanks + (sign + (digits + rest))) == if sign == "-" then -(Number(digits) as int) else Number(digits)
  {
    hide Number, DigitPrefix, AllDigits;
    var text := sign + (digits + rest);
    if blanks == "" {
      AtoiSigned(sign, digits, rest);
      assert blanks + text == text;
    } else {
      assert (blanks + text)[1..] == blanks[1..] + text && (blanks + text)[0] == blanks[0];
      AtoiReads(blanks[1..], sign, digits, rest);
    }
  }

  /** dm_utils_itoa: a buffer of 10 characters holds at most 9 digits and the terminator. */
  function Itoa(n: nat): (s: string)
    ensures s != "" && |s| <= 9 && AllDigits(s)
  {
    var s := Decimal(n);
    if |s| <= 9 then s else s[..9]
  }

  const ITOA_LIMIT: nat := 1_000_000_000

  /** The printed index reads back exactly when it has at most nine digits. */
  lemma {:induction false} ItoaReadsBack(n: nat)
    ensures Atoi(Itoa(n)) == n <==> n < ITOA_LIMIT
  {
    assert Pow10(9) == ITOA_LIMIT by { PowersOfTen(); }
    DecimalLength(n, 9);
    AtoiDigits(Itoa(n));
    NumberBound(Itoa(n));
    Pow10Monotone(|Itoa(n)|, 9);
  }

  lemma {:induction false} PowersOfTen()
    ensures Pow10(9) == 1_000_000_000 && Pow10(10) == 10_000_000_000
  {
    assert Pow10(3) == 1000;
    assert Pow10(6) == 1000 * Pow10(3);
    assert Pow10(9) == 1000 * Pow10(6);
  }

  // ---------------------------------------------------------------- bracketed index

  /**
    What dm_utils_strarr_index leaves with its caller: the status, the length before the bracket
    (0, the caller's initial value, unless written) and the index.  A body of more than ten
    characters fails after the length has been written.
  */
  datatype Bracket = Bracket(ok: bool, partial: nat, index: int)

  const NO_BRACKET := Bracket(false, 0, 0)

  datatype Scan = Broken | Scanned(pre: Option<nat>, suf: Option<nat>)

  /** The bracket scan from position `i`, `deep` brackets being open. */
  function ScanFrom(s: string, i: nat, open: bool, pre: Option<nat>, suf: Option<nat>): (r: Scan)
    requires i <= |s|
    decreases |s| - i
  {
    if i == |s| then Scanned(pre, suf)
    else if s[i] == '[' then
      if open then Broken else ScanFrom(s, i + 1, true, if pre.None? then Some(i) else pre, suf)
    else if s[i] == ']' then
      if !open || (i > 0 && s[i - 1] == '[') then Broken
      else ScanFrom(s, i + 1, false, pre, if suf.None? then Some(i) else suf)
    else ScanFrom(s, i + 1, open, pre, suf)
  }

  function Close(s: string, r: Scan): Bracket {
    if r.Scanned? && r.pre.Some? && r.suf.Some? && r.suf.value + 1 == |s| && r.pre.value < r.suf.value then
      var body := s[r.pre.value + 1..r.suf.value];
      if |body| > 10 then Bracket(false, r.pre.value, 0) else Bracket(true, r.pre.value, Atoi(body))
    else NO_BRACKET
  }

  function ParseIndex(s: string): Bracket {
    if |s| <= 1 then NO_BRACKET else Close(s, ScanFrom(s, 0, false, None, None))
  }

  /** dm_utils_strarr_index, called with its two counters at 0. */
  method StrarrIndex(input: string) returns (r: Bracket)
    ensures r == ParseIndex(input)
  {
    if |input| <= 1 {
      return NO_BRACKET;
    }
    var index, deep := 0, 0;
    var pre: Option<nat>, suf: Option<nat> := None, None;
    while index < |input|
      invariant 0 <= index <= |input| && 0 <= deep <= 1
      invariant ScanFrom(input, 0, false, None, None) == ScanFrom(input, index, deep == 1, pre, suf)
      invariant deep == 1 ==> pre.Some?
      invariant suf.Some? ==> pre.Some? && pre.value < suf.value < index
      invariant pre.Some? ==> pre.value < index
    {
      if input[index] == '[' {
        if deep != 0 {
          return NO_BRACKET;
        }
        deep := deep + 1;
        if pre.None? {
          pre := Some(index);
        }
      } else if input[index] == ']' {
        if deep != 1 {
          return NO_BRACKET;
        }
        deep := deep - 1;
        if input[index - 1] == '[' {
          return NO_BRACKET;
        }
        if suf.None? {
          suf := Some(index);
        }
      }
      index := index + 1;
    }
    if pre.Some? && suf.Some? && suf.value + 1 == |input| {
      if suf.value - pre.value - 1 > 10 {
        return Bracket(false, pre.value, 0);
      }
      return Bracket(true, pre.value, Atoi(input[pre.value + 1..suf.value]));
    }
    return NO_BRACKET;
  }

  predicate BracketFree(s: string) { '[' !in s && ']' !in s }

  /** Scanning a bracket-free stretch changes nothing. */
  lemma {:induction false} ScanSkip(s: string, i: nat, j: nat, open: bool, pre: Option<nat>, suf: Option<nat>)
    requires i <= j <= |s| && BracketFree(s[i..j])
    ensures ScanFrom(s, i, open, pre, suf) == ScanFrom(s, j, open, pre, suf)
    decreases j - i
  {
    if i < j {
      assert s[i] == s[i..j][0];
      assert s[i + 1..j] == s[i..j][1..];
      ScanSkip(s, i + 1, j, open, pre, suf);
    }
  }

  lemma {:induction false} ParseIndexFree(s: string)
    requires BracketFree(s)
    ensures ParseIndex(s) == NO_BRACKET
  {
    assert s[0..|s|] == s;
    ScanSkip(s, 0, |s|, false, None, None);
  }

  function Bracketed(name: string, body: string): string {
    name + "[" + body + "]"
  }

  lemma {:induction false} ParseIndexBracketed(name: string, body: string)
    requires BracketFree(name) && BracketFree(body) && body != ""
    ensures ParseIndex(Bracketed(name, body))
         == if |body| > 10 then Bracket(false, |name|, 0) else Bracket(true, |name|, Atoi(body))
  {
    var s, p, q := Bracketed(name, body), |name|, |name| + 1 + |body|;
    assert s[..p] == name && s[0..p] == name && s[p] == '[' && s[p + 1..q] == body && s[q] == ']';
    ScanSkip(s, 0, p, false, None, None);
    ScanSkip(s, p + 1, q, true, Some(p), None);
    assert s[q - 1] == body[|body| - 1];
    assert s[q - 1] in body;
    assert ScanFrom(s, p, false, None, None) == ScanFrom(s, p + 1, true, Some(p), None);
    assert ScanFrom(s, q, true, Some(p), None) == ScanFrom(s, q + 1, false, Some(p), Some(q));
  }

  /** Once a closing bracket has been seen, it is the one the scan reports. */
  lemma {:induction false} ScanKeepsSuffix(s: string, i: nat, open: bool, pre: Option<nat>, suf: Option<nat>)
    requires i <= |s| && suf.Some?
    ensures var r := ScanFrom(s, i, open, pre, suf); r.Scanned? ==> r.suf == suf
    decreases |s| - i
  {
    if i < |s| {
      if s[i] == '[' {
        ScanKeepsSuffix(s, i + 1, true, if pre.None? then Some(i) else pre, suf);
      } else if s[i] == ']' {
        ScanKeepsSuffix(s, i + 1, false, pre, suf);
      } else {
        ScanKeepsSuffix(s, i + 1, open, pre, suf);
      }
    }
  }

  lemma {:induction false} ScanSuffixBefore(s: string, i: nat, k: nat, open: bool, pre: Option<nat>)
    requires i <= k < |s| && s[k] == ']'
    ensures var r := ScanFrom(s, i, open, pre, None); r.Scanned? ==> r.suf.Some? && r.suf.value <= k
    decreases |s| - i
  {
    if s[i] == '[' {
      ScanSuffixBefore(s, i + 1, k, true, if pre.None? then Some(i) else pre);
    } else if s[i] == ']' {
      ScanKeepsSuffix(s, i + 1, false, pre, Some(i));
    } else {
      ScanSuffixBefore(s, i + 1, k, open, pre);
    }
  }

  /** A closing bracket before the end: the segment is not `name[index]`, and nothing is written. */
  lemma {:induction false} ParseIndexInnerBracket(s: string, k: nat)
    requires k + 1 < |s| && s[k] == ']'
    ensures ParseIndex(s) == NO_BRACKET
  {
    ScanSuffixBefore(s, 0, k, false, None);
  }

  /** What a scan that reports brackets at p and q has seen. */
  lemma {:induction false} ScanShape(s: string, i: nat, open: bool, pre: Option<nat>)
    requires i <= |s| && (open <==> pre.Some?)
    requires pre.Some? ==> pre.value < i && BracketFree(s[pre.value + 1..i])
    requires pre.None? ==> BracketFree(s[..i])
    requires pre.Some? ==> BracketFree(s[..pre.value]) && s[pre.value] == '['
    ensures var r := ScanFrom(s, i, open, pre, None);
            r.Scanned? && r.suf.Some? ==>
              && r.pre.Some? && r.pre.value + 1 < r.suf.value < |s|
              && s[r.pre.value] == '[' && s[r.suf.value] == ']'
              && BracketFree(s[..r.pre.value]) && BracketFree(s[r.pre.value + 1..r.suf.value])
    decreases |s| - i
  {
    if i < |s| {
      if s[i] == '[' {
        if !open {
          ScanShape(s, i + 1, true, Some(i));
        }
      } else if s[i] == ']' {
        if open && s[i - 1] != '[' {
          ScanKeepsPrefix(s, i + 1, false, pre, Some(i));
          ScanKeepsSuffix(s, i + 1, false, pre, Some(i));
        }
      } else {
        if pre.Some? {
          assert s[pre.value + 1..i + 1] == s[pre.value + 1..i] + [s[i]];
        } else {
          assert s[..i + 1] == s[..i] + [s[i]];
        }
        ScanShape(s, i + 1, open, pre);
      }
    }
  }

  lemma {:induction false} ScanKeepsPrefix(s: string, i: nat, open: bool, pre: Option<nat>, suf: Option<nat>)
    requires i <= |s| && pre.Some?
    ensures var r := ScanFrom(s, i, open, pre, suf); r.Scanned? ==> r.pre == pre
    decreases |s| - i
  {
    if i < |s| {
      if s[i] == '[' {
        ScanKeepsPrefix(s, i + 1, true, pre, suf);
      } else if s[i] == ']' {
        ScanKeepsPrefix(s, i + 1, false, pre, if suf.None? then Some(i) else suf);
      } else {
        ScanKeepsPrefix(s, i + 1, open, pre, suf);
      }
    }
  }

  /** The parser accepts exactly `name[body]` with bracket-free parts and a body of 1 to 10 characters. */
  lemma {:induction false} ParseIndexExact(s: string)
    ensures ParseIndex(s).ok <==>
            exists name, body :: s == Bracketed(name, body) && BracketFree(name) && BracketFree(body)
                                 && 1 <= |body| <= 10
  {
    if ParseIndex(s).ok {
      ScanShape(s, 0, false, None);
      var r := ScanFrom(s, 0, false, None, None);
      var name, body := s[..r.pre.value], s[r.pre.value + 1..r.suf.value];
      assert s == Bracketed(name, body);
    }
    if exists name, body :: s == Bracketed(name, body) && BracketFree(name) && BracketFree(body) && 1 <= |body| <= 10 {
      var name, body :| s == Bracketed(name, body) && BracketFree(name) && BracketFree(body) && 1 <= |body| <= 10;
      ParseIndexBracketed(name, body);
    }
  }
}
