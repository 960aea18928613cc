/** Correcting a server time by half the round trip: linkkit_ntp_time_reply of eng/dev_model/impl_ntp.c. */
module Ntp {
  import opened Text

  /** Values of a uint32_t. */
  const WORD: nat := 0x1_0000_0000

  const TEXT_MAX := 20
  const DIFF_MAX := 1_000_000
  const NINE_DIGITS: nat := 1_000_000_000

  /** The manual conversion of the send time: every character counts as a digit, modulo 2^32. */
  function ReadWord(s: string): (n: nat)
    ensures n < WORD
  {
    if s == "" then 0 else (ReadWord(s[..|s| - 1]) * 10 + (s[|s| - 1] as int - '0' as int)) % WORD
  }

  /** Half of the time since the send time that came back, in unsigned 32-bit arithmetic. */
  function Half(deviceTx: string, now: nat): nat {
    ((now % WORD - ReadWord(deviceTx)) % WORD) / 2
  }

  /** %09u. */
  function Padded(n: nat): (s: string)
    requires n < NINE_DIGITS
    ensures |s| == 9
  {
    PowersOfTen();
    DecimalLength(n, 9);
    seq(9 - |Decimal(n)|, _ => '0') + Decimal(n)
  }

  /** The last nine characters as a number, moved by the difference and held below 10^9. */
  function Moved(tail: string, diff: nat): (n: nat)
    ensures n < NINE_DIGITS
  {
    var tx := (Atoi(tail) % WORD + diff) % WORD;
    if tx > 999_999_999 then 999_999_999 else tx
  }

  function Tail(s: string): (i: nat)
    ensures i <= |s|
  {
    if |s| > 9 then |s| - 9 else 0
  }

  function Corrected(serverTx: string, diff: nat): string {
    var i := Tail(serverTx);
    var tx := Moved(serverTx[i..], diff);
    serverTx[..i] + if |serverTx| > 9 then Padded(tx) else Decimal(tx)
  }

  /** The C string at the start of a buffer. */
  function CString(buffer: seq<char>): string {
    if buffer == [] || buffer[0] == '\0' then "" else [buffer[0]] + CString(buffer[1..])
  }

  lemma {:induction false} CStringIs(buffer: seq<char>, text: string)
    requires |text| < |buffer| && buffer[..|text|] == text && buffer[|text|] == '\0' && '\0' !in text
    ensures CString(buffer) == text
  {
    if text != "" {
      assert buffer[1..][..|text| - 1] == text[1..];
      assert buffer[0] == text[0];
      CStringIs(buffer[1..], text[1..]);
    }
  }

  /** sprintf into a buffer from an index on: the text and its terminator. */
  method Print(buffer: array<char>, at: nat, text: string)
    requires at + |text| < buffer.Length
    modifies buffer
    ensures buffer[..at] == old(buffer[..at])
    ensures buffer[at..at + |text|] == text && buffer[at + |text|] == '\0'
  {
    for i := 0 to |text|
      invariant buffer[..at] == old(buffer[..at])
      invariant forall k :: 0 <= k < i ==> buffer[at + k] == text[k]
    {
      buffer[at + i] := text[i];
    }
    buffer[at + |text|] := '\0';
  }

  /** The reply handler after the three members were found in the payload; a member of a wrong length fails, as does a
      difference of 10^6 and more. */
  method Reply(deviceTx: string, serverRx: string, serverTx: string, now: nat) returns (r: Option<string>)
    requires '\0' !in serverTx
    ensures r.Some? <==> 0 < |deviceTx| <= 20 && 0 < |serverRx| <= 20 && 0 < |serverTx| <= 20
                         && Half(deviceTx, now) < 1_000_000
    ensures r.Some? ==> r.value == Corrected(serverTx, Half(deviceTx, now))
  {
    if |serverTx| <= 0 || |serverTx| > TEXT_MAX || |serverRx| <= 0 || |serverRx| > TEXT_MAX
       || |deviceTx| <= 0 || |deviceTx| > TEXT_MAX {
      return None;
    }
    hide Atoi, Decimal, Padded, Moved, CString;
    var buffer := new char[TEXT_MAX + 1](_ => '\0');
    Print(buffer, 0, serverTx);
    assert buffer[..|serverTx|] == serverTx;
    var tx := ReadSendTime(deviceTx);
    var diff := ((now % WORD - tx) % WORD) / 2;
    if diff >= DIFF_MAX {
      return None;
    }
    var corrected := Rewrite(buffer, serverTx, diff);
    r := Some(corrected);
  }

  /** The loop that converts the send time. */
  method ReadSendTime(deviceTx: string) returns (tx: nat)
    ensures tx == ReadWord(deviceTx)
  {
    tx := 0;
    for at := 0 to |deviceTx|
      invariant tx == ReadWord(deviceTx[..at])
    {
      assert deviceTx[..at + 1][..at] == deviceTx[..at];
      tx := (tx * 10 + (deviceTx[at] as int - '0' as int)) % WORD;
    }
    assert deviceTx[..|deviceTx|] == deviceTx;
  }

  /** The last nine characters are rewritten in place; the buffer keeps room for the terminator. */
  method Rewrite(buffer: array<char>, serverTx: string, diff: nat) returns (r: string)
    requires buffer.Length == TEXT_MAX + 1 && 0 < |serverTx| <= TEXT_MAX && '\0' !in serverTx
    requires buffer[..|serverTx|] == serverTx
    modifies buffer
    ensures r == Corrected(serverTx, diff) == CString(buffer[..])
  {
    hide Atoi, Decimal, Padded, Moved, CString;
    var elem := Tail(serverTx);
    var moved := Moved(serverTx[elem..], diff);
    var text := if |serverTx| > 9 then Padded(moved) else Decimal(moved);
    MovedPrints(moved);
    Print(buffer, elem, text);
    assert buffer[..elem] == serverTx[..elem];
    r := serverTx[..elem] + text;
    assert buffer[..][..|r|] == r;
    CStringIs(buffer[..], r);
  }

  lemma {:induction false} MovedPrints(n: nat)
    requires n < NINE_DIGITS
    ensures |Decimal(n)| <= 9 && '\0' !in Decimal(n) && '\0' !in Padded(n)
  {
    PowersOfTen();
    DecimalLength(n, 9);
    assert forall i :: 0 <= i < |Decimal(n)| ==> IsDigit(Decimal(n)[i]);
  }

  // ---------------------------------------------------------------- the difference

  lemma {:induction false} ReadWordDigits(s: string)
    requires AllDigits(s)
    ensures ReadWord(s) == Number(s) % WORD
  {
    if s != "" {
      ReadWordDigits(s[..|s| - 1]);
      ModStep(Number(s[..|s| - 1]), DigitValue(s[|s| - 1]));
    }
  }

  lemma {:induction false} ModStep(n: nat, d: nat)
    ensures ((n % WORD) * 10 + d) % WORD == (n * 10 + d) % WORD
  {
    var q := n / WORD;
    assert n == q * WORD + n % WORD;
    assert n * 10 + d == (q * 10) * WORD + ((n % WORD) * 10 + d);
    ModDrop(q * 10, (n % WORD) * 10 + d);
  }

  lemma {:induction false} ModDrop(q: int, r: int)
    ensures (q * WORD + r) % WORD == r % WORD
  {
  }

  /** What the request prints is the low word of the uptime.  However often it wraps around in between, the difference is
      half of the elapsed time modulo 2^32, which is half of the elapsed time exactly when less than 2^32 ms went by. */
  lemma {:induction false} HalfOfElapsed(sent: nat, elapsed: nat)
    ensures Half(Decimal(sent % WORD), sent + elapsed) == (elapsed % WORD) / 2
    ensures Half(Decimal(sent % WORD), sent + elapsed) == elapsed / 2 <==> elapsed < WORD
  {
    hide Decimal, Number, ReadWord;
    ReadWordDigits(Decimal(sent % WORD));
    SmallWord(sent % WORD);
    Wrapped(sent, elapsed);
    HalfExact(elapsed);
  }

  lemma {:induction false} Wrapped(sent: nat, elapsed: nat)
    ensures ((sent + elapsed) % WORD - sent % WORD) % WORD == elapsed % WORD
  {
    var p, q := sent / WORD, (sent + elapsed) / WORD;
    assert (sent + elapsed) % WORD - sent % WORD == (p - q) * WORD + elapsed;
    ModDrop(p - q, elapsed);
  }

  lemma {:induction false} HalfExact(elapsed: nat)
    ensures (elapsed % WORD) / 2 == elapsed / 2 <==> elapsed < WORD
  {
  }

  // ---------------------------------------------------------------- the corrected time

  lemma {:induction false} ZerosCount(k: nat)
    ensures AllDigits(seq(k, _ => '0')) && Number(seq(k, _ => '0')) == 0
  {
    if k > 0 {
      ZerosCount(k - 1);
      assert seq(k, _ => '0')[..k - 1] == seq(k - 1, _ => '0');
    }
  }

  lemma {:induction false} PaddedNumber(n: nat)
    requires n < NINE_DIGITS
    ensures AllDigits(Padded(n)) && Number(Padded(n)) == n
  {
    PowersOfTen();
    DecimalLength(n, 9);
    var k := 9 - |Decimal(n)|;
    ZerosCount(k);
    NumberConcat(seq(k, _ => '0'), Decimal(n));
  }

  lemma {:induction false} MovedDigits(tail: string, diff: nat)
    requires AllDigits(tail) && |tail| <= 9 && diff < DIFF_MAX
    ensures Number(tail) < NINE_DIGITS
    ensures Moved(tail, diff) == Number(tail) + if diff < NINE_DIGITS - Number(tail) then diff else NINE_DIGITS - 1 - Number(tail)
  {
    hide Number, Atoi, Pow10;
    AtoiDigits(tail);
    NumberBound(tail);
    Pow10Monotone(|tail|, 9);
    PowersOfTen();
    SmallWord(Number(tail));
    SmallWord(Number(tail) + diff);
  }

  lemma {:induction false} SmallWord(n: nat)
    requires n < WORD
    ensures n % WORD == n
  {
  }

  function Min(a: int, b: int): int {
    if a < b then a else b
  }

  /** The last nine digits move forward by the difference but never carry into the ones before them.  A time of more than
      nine digits keeps its length, and no result is longer than twenty characters. */
  lemma {:induction false} CorrectedValue(s: string, diff: nat)
    requires AllDigits(s) && 0 < |s| <= TEXT_MAX && diff < DIFF_MAX
    ensures var r := Corrected(s, diff);
            && AllDigits(r) && |r| <= TEXT_MAX && (|s| > 9 ==> |r| == |s|)
            && Number(r) == Number(s) + Min(diff, NINE_DIGITS - 1 - Number(s) % NINE_DIGITS)
  {
    hide Moved, Padded, Decimal, Number, Atoi, Pow10;
    var i := Tail(s);
    var head, tail := s[..i], s[i..];
    assert s == head + tail;
    MovedDigits(tail, diff);
    if |s| > 9 {
      LongTime(head, tail, diff);
    } else {
      assert tail == s && head + Decimal(Moved(s, diff)) == Decimal(Moved(s, diff));
      ShortTime(s, diff);
    }
  }

  lemma {:induction false} LongTime(head: string, tail: string, diff: nat)
    requires AllDigits(head) && AllDigits(tail) && |tail| == 9 && diff < DIFF_MAX
    ensures var r, s := head + Padded(Moved(tail, diff)), head + tail;
            && AllDigits(r) && AllDigits(s)
            && Number(r) == Number(s) + Min(diff, NINE_DIGITS - 1 - Number(s) % NINE_DIGITS)
  {
    hide Moved, Padded, Number, Atoi, Pow10, AllDigits;
    var n := Moved(tail, diff);
    MovedDigits(tail, diff);
    PaddedNumber(n);
    NumberConcat(head, tail);
    NumberConcat(head, Padded(n));
    PowersOfTen();
    NineMod(Number(head), Number(tail));
  }

  lemma {:induction false} ShortTime(s: string, diff: nat)
    requires AllDigits(s) && |s| <= 9 && diff < DIFF_MAX
    ensures var r := Decimal(Moved(s, diff));
            && |r| <= 9 && Number(r) == Number(s) + Min(diff, NINE_DIGITS - 1 - Number(s) % NINE_DIGITS)
  {
    hide Moved, Padded, Decimal, Number, Atoi, Pow10, AllDigits;
    MovedDigits(s, diff);
    MovedPrints(Moved(s, diff));
    NineSmall(Number(s));
  }

  lemma {:induction false} NineSmall(n: nat)
    requires n < NINE_DIGITS
    ensures n % NINE_DIGITS == n
  {
  }

  lemma {:induction false} NineMod(a: nat, b: nat)
    requires b < NINE_DIGITS
    ensures (a * NINE_DIGITS + b) % NINE_DIGITS == b
  {
  }
}
