// The transport's logger (com.unity.transport/Runtime/NetworkLogger.cs):
// NetworkLogString, a NUL-terminated text in a fixed 512-character buffer
// that appends throw on overflow, and NetworkLogger, which filters messages
// by level into a pending queue that FlushPending moves to the log.
// A thrown InvalidOperationException is an `ok == false` result that leaves
// the string unchanged.

module NetworkLogging {
  import opened Words
  import opened NetworkEndPoints

  /** The size of a NetworkLogString's buffer, terminator included. */
  const Capacity: int := 512

  const Nul: char := '\0'

  predicate NoNul(s: string)
  {
    forall i | 0 <= i < |s| :: s[i] != Nul
  }

  /** The text a C# string pointer yields: everything before the first NUL. */
  function BeforeNul(s: string): (r: string)
    ensures |r| <= |s| && r == s[..|r|] && NoNul(r)
    ensures |r| < |s| ==> s[|r|] == Nul
  {
    if |s| == 0 || s[0] == Nul then [] else [s[0]] + BeforeNul(s[1..])
  }

  function Pow10(n: nat): (r: nat)
    ensures r >= 1 && r > n
  {
    if n == 0 then 1 else 10 * Pow10(n - 1)
  }

  /** The number of decimal digits of n (1 for 0). */
  function Width(n: nat): (w: nat)
    ensures w >= 1
  {
    if n < 10 then 1 else 1 + Width(n / 10)
  }

  /** n has more than k digits exactly when it reaches 10^k. */
  lemma {:induction false} WidthAbove(n: nat, k: nat)
    requires k >= 1
    ensures Width(n) > k <==> n >= Pow10(k)
  {
    if k > 1 && n >= 10 {
      WidthAbove(n / 10, k - 1);
      var p := Pow10(k - 1);
      assert n / 10 >= p <==> n >= 10 * p;
    }
  }

  lemma DivUpTo(v: nat, m: nat)
    requires m >= 1 && v <= 10 * m
    ensures 0 <= v / m <= 10 && 0 <= v % m < m
  {
    assert v == v / m * m + v % m;
  }

  /** One digit of a value below 10m taken off the top, and the value rebuilt from it. */
  lemma DigitStep(a: int, rest: nat, m: nat)
    requires m >= 1 && rest < 10 * m
    ensures 0 <= rest / m < 10 && 0 <= rest % m < m
    ensures (a * 10 + rest / m) * m + rest % m == a * (10 * m) + rest
  {
    assert rest == rest / m * m + rest % m;
  }

  /** The character of a decimal digit, as `(ushort)('0' + d)` computes it. */
  function DigitChar(d: int): (c: char)
    requires 0 <= d <= 10
    ensures 0 <= d <= 9 ==> IsDigit(c)
  {
    ('0' as int + d) as char
  }

  /**
   * The decimal text of an int as AppendInt is meant to write it: a '-' for
   * a negative value, then the digits of its magnitude without leading zeros
   * (as a 64-bit magnitude, so int.MinValue is written in full).
   */
  predicate IsIntText(val: int, t: string)
  {
    var sign := if val < 0 then 1 else 0;
    var mag := if val < 0 then -val else val;
    && |t| == sign + Width(mag)
    && (val < 0 ==> t[0] == '-')
    && AllDigits(t[sign..])
    && DecimalValue(t[sign..]) == mag
    && (Width(mag) > 1 ==> t[sign] != '0')
  }

  /** Appending one more digit to a decimal text: the value shifts one place. */
  lemma DecimalSnoc(ds: string, c: char)
    requires IsDigit(c)
    ensures DecimalValue(ds + [c]) == DecimalValue(ds) * 10 + (c as int - '0' as int)
  {
    assert (ds + [c])[..|ds|] == ds;
  }

  // ---------------------------------------------------------------------------
  // AppendInt as written

  /** The digit count the `while (val > maxval)` loop computes, in arithmetic that does not wrap. */
  function WidthAsWritten(v: nat, digits: nat): (w: nat)
    requires digits >= 1
    ensures w >= digits && v <= Pow10(w)
    decreases v - digits
  {
    if v > Pow10(digits) then WidthAsWritten(v, digits + 1) else digits
  }

  /** The digits the second loop writes, from the top, while maxval > 1. */
  function DigitsFromTop(v: nat, maxval: nat, k: nat): (r: string)
    requires maxval == Pow10(k) && v <= maxval
    ensures |r| == k
  {
    if k == 0 then []
    else
      var m := Pow10(k - 1);
      DivUpTo(v, m);
      [DigitChar(v / m)] + DigitsFromTop(v % m, m, k - 1)
  }

  /**
   * The text AppendInt writes, as written, for a value whose magnitude is at
   * most 10^9 (so that maxval * 10 does not wrap).
   */
  function IntTextAsWritten(val: int): (t: string)
    requires -1_000_000_000 <= val <= 1_000_000_000
    ensures |t| >= 1
  {
    var mag := if val < 0 then -val else val;
    var w := WidthAsWritten(mag, 1);
    (if val < 0 then "-" else "") + DigitsFromTop(mag, Pow10(w), w)
  }

  /** AppendInt(10) writes ":" (the character after '9'), not "10". */
  lemma AsWrittenTen()
    ensures IntTextAsWritten(10) == ":"
    ensures !IsIntText(10, IntTextAsWritten(10))
  {
    assert WidthAsWritten(10, 1) == 1;
    assert DigitsFromTop(10, 10, 1) == [DigitChar(10)] + DigitsFromTop(0, 1, 0);
  }

  /**
   * The text AppendInt writes for int.MinValue, as written: `val = -val`
   * wraps back to int.MinValue, so the counting loop stops at once with one
   * digit, and that digit is `(ushort)('0' + val / 1)`, whose 16-bit wrap
   * drops the whole value.
   */
  function MinValueTextAsWritten(): (t: string)
    ensures |t| == 2 && t[0] == '-'
  {
    var val := ToI32(-(-0x8000_0000));
    var digit := ToU16('0' as int + DivT(val, 1));
    assert val == -0x8000_0000 && digit == '0' as int;
    "-" + [digit as char]
  }

  /** AppendInt(int.MinValue) writes "-0", not "-2147483648". */
  lemma AsWrittenMinValue()
    ensures MinValueTextAsWritten() == "-0"
    ensures !IsIntText(-0x8000_0000, MinValueTextAsWritten())
  {
    assert Width(0x8000_0000) > 1 by {
      WidthAbove(0x8000_0000, 1);
    }
  }

  /** maxval after k rounds of `maxval *= 10` in 32-bit int arithmetic. */
  function MaxvalAfter(k: nat): int32
  {
    if k == 0 then 10 else ToI32(MaxvalAfter(k - 1) * 10)
  }

  /**
   * The 32-bit maxval is always even, so it never reaches int.MaxValue:
   * AppendInt(int.MaxValue) never leaves its `while (val > maxval)` loop.
   */
  lemma {:induction false} AsWrittenNeverStops(k: nat)
    ensures MaxvalAfter(k) % 2 == 0
    ensures 0x7FFF_FFFF > MaxvalAfter(k)
  {
    if k > 0 {
      AsWrittenNeverStops(k - 1);
      EvenWraps(MaxvalAfter(k - 1) * 5);
    }
  }

  /** Wrapping an even number to 32 bits leaves it even. */
  lemma EvenWraps(y: int)
    ensures ToI32(2 * y) % 2 == 0
  {
    var q := (2 * y) / U32;
    var u := (2 * y) % U32;
    assert 2 * y == U32 * q + u;
    assert u == 2 * (y - 0x8000_0000 * q);
  }

  // ---------------------------------------------------------------------------
  // NetworkLogString

  /** NetworkLogString: up to 511 characters in a 512-character buffer, followed by a NUL. */
  class NetworkLogString {
    const message: array<char>
    var length: int

    ghost predicate Valid()
      reads this, message
    {
      && message.Length == Capacity
      && 0 <= length < Capacity
      && message[length] == Nul
      && NoNul(message[..length])
    }

    /** The text, without its terminator. */
    function Contents(): (s: string)
      reads this, message
      requires Valid()
      ensures |s| == length
    {
      message[..length]
    }

    /** The empty string, as `default(NetworkLogString)` is. */
    constructor Empty()
      ensures Valid() && Contents() == [] && fresh(message)
    {
      message := new char[Capacity](_ => Nul);
      length := 0;
    }

    /**
     * NetworkLogString(string): copies the characters before the first NUL.
     * The source checks no bound here; the text must fit the buffer.
     */
    constructor (str: string)
      requires |BeforeNul(str)| < Capacity
      ensures Valid() && Contents() == BeforeNul(str) && fresh(message)
    {
      var text := BeforeNul(str);
      var buffer := new char[Capacity](_ => Nul);
      var i := 0;
      while i < |str| && str[i] != Nul
        invariant 0 <= i <= |text| && text[..i] == str[..i]
        invariant buffer[..i] == text[..i]
        invariant forall k | i <= k < Capacity :: buffer[k] == Nul
      {
        buffer[i] := str[i];
        i := i + 1;
      }
      assert i == |text|;
      message := buffer;
      length := i;
    }

    /**
     * AsString: scans for the terminator, so it yields exactly the
     * contents, which never hold a NUL.
     */
    method AsString() returns (s: string)
      requires Valid()
      ensures s == Contents()
    {
      var i := 0;
      while message[i] != Nul
        invariant 0 <= i <= length && message[..i] == Contents()[..i]
        decreases length - i
      {
        assert message[i] == Contents()[i];
        i := i + 1;
      }
      return message[..i];
    }

    /**
     * Append: fails when the two lengths together reach 512; otherwise
     * adds str's text at the end.
     */
    method Append(str: NetworkLogString) returns (ok: bool)
      requires Valid() && str.Valid() && str.message != message
      modifies this, message
      ensures Valid()
      ensures ok == (old(length) + str.length < Capacity)
      ensures ok ==> Contents() == old(Contents()) + str.Contents()
      ensures !ok ==> length == old(length) && message[..] == old(message[..])
    {
      if length + str.length >= Capacity {
        return false;
      }
      ghost var before := Contents();
      var i := 0;
      while i < str.length
        invariant 0 <= i <= str.length && length == |before| + i
        invariant message[..length] == before + str.Contents()[..i]
      {
        message[length] := str.message[i];
        length := length + 1;
        i := i + 1;
      }
      message[length] := Nul;
      assert str.Contents()[..i] == str.Contents();
      assert message[..length] == before + str.Contents();
      return true;
    }

    /** AppendSpace and AppendComma: one character, or failure at capacity. */
    method AppendChar(c: char) returns (ok: bool)
      requires Valid() && c != Nul
      modifies this, message
      ensures Valid()
      ensures ok == (old(length) + 1 < Capacity)
      ensures ok ==> Contents() == old(Contents()) + [c]
      ensures !ok ==> length == old(length) && message[..] == old(message[..])
    {
      if length + 1 >= Capacity {
        return false;
      }
      ghost var before := Contents();
      message[length] := c;
      length := length + 1;
      message[length] := Nul;
      assert message[..length] == before + [c];
      return true;
    }

    method AppendSpace() returns (ok: bool)
      requires Valid()
      modifies this, message
      ensures Valid()
      ensures ok == (old(length) + 1 < Capacity)
      ensures ok ==> Contents() == old(Contents()) + " "
      ensures !ok ==> length == old(length) && message[..] == old(message[..])
    {
      ok := AppendChar(' ');
    }

    method AppendComma() returns (ok: bool)
      requires Valid()
      modifies this, message
      ensures Valid()
      ensures ok == (old(length) + 1 < Capacity)
      ensures ok ==> Contents() == old(Contents()) + ","
      ensures !ok ==> length == old(length) && message[..] == old(message[..])
    {
      ok := AppendChar(',');
    }

    /**
     * AppendInt with the digit count fixed (`val >= maxval`, maxval without
     * wrap-around) and the magnitude of int.MinValue taken without wrap-around: fails when the sign and the digits do not fit; otherwise
     * appends the decimal text of val.
     */
    method AppendInt(val: int32) returns (ok: bool)
      requires Valid()
      modifies this, message
      ensures Valid()
      ensures var sign := if val < 0 then 1 else 0;
        var mag := if val < 0 then -(val as int) else val as int;
        ok == (old(length) + Width(mag) + sign < Capacity)
        && (ok ==> length == old(length) + sign + Width(mag))
      ensures ok ==>
        old(length) <= length && Contents()[..old(length)] == old(Contents()) && IsIntText(val, Contents()[old(length)..])
      ensures !ok ==> length == old(length) && message[..] == old(message[..])
    {
      var isneg := val < 0;
      var v: nat := if isneg then -(val as int) else val as int;
      var digits := CountDigits(v);
      if length + digits + (if isneg then 1 else 0) >= Capacity {
        return false;
      }
      ghost var before := Contents();
      ghost var sign: string := [];
      if isneg {
        message[length] := '-';
        length := length + 1;
        sign := "-";
      }
      assert message[..length] == before + sign;
      ghost var ds := WriteDigits(v, digits, before + sign);
      assert Contents() == before + (sign + ds);
      assert Contents()[|before|..] == sign + ds;
      assert (sign + ds)[|sign|..] == ds;
      return true;
    }

    /** The first loop of AppendInt: maxval grows by tens until it passes v. */
    static method CountDigits(v: nat) returns (digits: nat)
      ensures digits == Width(v)
    {
      digits := 1;
      var maxval := 10;
      while v >= maxval
        invariant digits >= 1 && maxval == Pow10(digits) && Width(v) >= digits
        decreases v - maxval
      {
        WidthAbove(v, digits);
        digits := digits + 1;
        maxval := maxval * 10;
      }
      WidthAbove(v, digits);
    }

    /** The text so far, without a terminator yet: the state inside AppendInt. */
    ghost predicate Unterminated()
      reads this, message
    {
      message.Length == Capacity && 0 <= length < Capacity && NoNul(message[..length])
    }

    /** The second loop of AppendInt: the digits of v from the top, then the terminator. */
    method WriteDigits(v: nat, digits: nat, ghost before: string) returns (ghost ds: string)
      requires Unterminated() && message[..length] == before
      requires digits == Width(v) && length + digits < Capacity
      modifies this, message
      ensures Valid() && Contents() == before + ds && |ds| == digits
      ensures AllDigits(ds) && DecimalValue(ds) == v && (digits > 1 ==> ds[0] != '0')
    {
      WidthAbove(v, digits);
      if digits > 1 {
        WidthAbove(v, digits - 1);
      }
      var maxval := Pow10(digits);
      var rest := v;
      ghost var k := digits;
      ds := [];
      while maxval > 1
        invariant DigitsSoFar(v, digits, ds, k, maxval, rest)
        invariant length == |before| + |ds| && message.Length == Capacity && message[..length] == before + ds
        decreases k
      {
        assert k >= 1 && maxval == 10 * Pow10(k - 1);
        var m := maxval / 10;
        assert m == Pow10(k - 1);
        NextDigit(v, digits, ds, k, rest, m);
        var c := DigitChar(rest / m);
        message[length] := c;
        length := length + 1;
        ds, k := ds + [c], k - 1;
        maxval, rest := m, rest % m;
      }
      message[length] := Nul;
      assert NoNul(message[..length]) by {
        assert message[..length] == before + ds;
      }
    }
  }

  predicate AllDigits(s: string)
  {
    forall i | 0 <= i < |s| :: IsDigit(s[i])
  }

  /**
   * The state of AppendInt's second loop: ds holds the top digits of v
   * written so far, maxval = 10^k is the place of the next one, and rest
   * the value still to write.
   */
  predicate DigitsSoFar(v: nat, digits: nat, ds: string, k: nat, maxval: nat, rest: nat)
  {
    && k <= digits && |ds| == digits - k
    && maxval == Pow10(k) && rest < maxval
    && AllDigits(ds) && DecimalValue(ds) * maxval + rest == v
    && (digits > 1 ==> v >= Pow10(digits - 1))
    && (digits > 1 && |ds| > 0 ==> ds[0] != '0')
    && (k == digits ==> rest == v)
  }

  /** Writing the digit rest / m keeps the loop's state. */
  lemma NextDigit(v: nat, digits: nat, ds: string, k: nat, rest: nat, m: nat)
    requires DigitsSoFar(v, digits, ds, k, 10 * m, rest) && k >= 1
    ensures 0 <= rest / m < 10 && m == Pow10(k - 1)
    ensures DigitsSoFar(v, digits, ds + [DigitChar(rest / m)], k - 1, m, rest % m)
  {
    DigitStep(DecimalValue(ds), rest, m);
    var c := DigitChar(rest / m);
    DecimalSnoc(ds, c);
    var ds2 := ds + [c];
    assert AllDigits(ds2) by {
      forall i | 0 <= i < |ds2|
        ensures IsDigit(ds2[i])
      {
        if i < |ds| {
          assert ds2[i] == ds[i];
        }
      }
    }
    if digits > 1 && |ds| == 0 {
      assert rest == v && 10 * m == Pow10(digits) && m == Pow10(digits - 1);
      assert rest / m >= 1 by {
        assert rest >= m;
      }
    }
    if |ds| > 0 {
      assert ds2[0] == ds[0];
    }
  }

  // ---------------------------------------------------------------------------
  // NetworkLogger

  datatype LogLevel = None | Error | Warning | Info | Debug
  {
    function Ordinal(): (n: int)
      ensures 0 <= n <= 4
    {
      match this
      case None => 0
      case Error => 1
      case Warning => 2
      case Info => 3
      case Debug => 4
    }
  }

  /** A logged message: its text (copied from the NetworkLogString) and its level. */
  datatype LogMessage = LogMessage(msg: string, level: LogLevel)

  /** The console call DumpToConsole makes for a message. */
  datatype ConsoleCall = LogError(text: string) | LogWarning(text: string) | LogInfo(text: string)

  function ConsoleCallOf(m: LogMessage): (c: ConsoleCall)
    ensures c.text == m.msg
    ensures c.LogError? <==> m.level == Error
    ensures c.LogWarning? <==> m.level == Warning
  {
    match m.level
    case Error => LogError(m.msg)
    case Warning => LogWarning(m.msg)
    case _ => LogInfo(m.msg)
  }

  class NetworkLogger {
    const level: LogLevel
    var pending: seq<LogMessage>
    var logFile: seq<LogMessage>

    /** No message above the configured level is ever queued or logged. */
    ghost predicate Valid()
      reads this
    {
      && (forall i | 0 <= i < |pending| :: pending[i].level.Ordinal() <= level.Ordinal())
      && (forall i | 0 <= i < |logFile| :: logFile[i].level.Ordinal() <= level.Ordinal())
    }

    constructor (lvl: LogLevel)
      ensures Valid() && level == lvl && pending == [] && logFile == []
    {
      level := lvl;
      pending, logFile := [], [];
    }

    /** Log: a message above the configured level is dropped; any other is queued. */
    method Log(lvl: LogLevel, str: NetworkLogString)
      requires Valid() && str.Valid()
      modifies this`pending
      ensures Valid()
      ensures lvl.Ordinal() > level.Ordinal() ==> pending == old(pending)
      ensures lvl.Ordinal() <= level.Ordinal() ==> pending == old(pending) + [LogMessage(str.Contents(), lvl)]
    {
      if lvl.Ordinal() > level.Ordinal() {
        return;
      }
      pending := pending + [LogMessage(str.Contents(), lvl)];
    }

    /** FlushPending: every pending message moves to the log, in the order queued. */
    method FlushPending()
      requires Valid()
      modifies this`pending, this`logFile
      ensures Valid()
      ensures pending == [] && logFile == old(logFile) + old(pending)
    {
      ghost var all := logFile + pending;
      while |pending| > 0
        invariant Valid() && logFile + pending == all
        decreases |pending|
      {
        ghost var queued := pending;
        var msg := pending[0];
        pending := pending[1..];
        logFile := logFile + [msg];
        assert queued == [msg] + pending;
      }
    }

    /** DumpToConsole: each logged message goes to the console call for its level, in order, then the log is empty. */
    method DumpToConsole() returns (console: seq<ConsoleCall>)
      requires Valid()
      modifies this`logFile
      ensures Valid() && logFile == []
      ensures |console| == |old(logFile)|
      ensures forall i | 0 <= i < |console| :: console[i] == ConsoleCallOf(old(logFile)[i])
    {
      console := [];
      var i := 0;
      while i < |logFile|
        invariant 0 <= i <= |logFile| && |console| == i
        invariant forall k | 0 <= k < i :: console[k] == ConsoleCallOf(logFile[k])
      {
        console := console + [ConsoleCallOf(logFile[i])];
        i := i + 1;
      }
      logFile := [];
    }

    method Clear()
      requires Valid()
      modifies this`logFile
      ensures Valid() && logFile == [] && pending == old(pending)
    {
      logFile := [];
    }
  }
}
