/** Fixed-size buffers and the integer formatting of the log stream. */
module LogStreams {
  import opened Bytes
  import opened Numerals

  const SMALL_BUFFER: nat := 4000
  const LARGE_BUFFER: nat := 4000 * 1000
  const MAX_NUMERIC_SIZE: nat := 48
  const INT_LIMIT: nat := 0x8000_0000

  class FixedBuffer {
    const data: array<char>
    var cur: nat

    ghost predicate Valid()
      reads this
    {
      cur <= data.Length
    }

    function Contents(): string
      requires Valid()
      reads this, data
    {
      data[..cur]
    }

    constructor (size: nat)
      ensures Valid() && fresh(data) && data.Length == size && cur == 0
    {
      data := new char[size];
      cur := 0;
    }

    function Length(): nat
      reads this
    {
      cur
    }

    function Avail(): int
      reads this
    {
      data.Length - cur
    }

    /** Stores the bytes when they fit with one byte to spare, and drops them whole otherwise. */
    method Append(bytes: string)
      requires Valid() && |bytes| < INT_LIMIT
      modifies this, data
      ensures Valid()
      ensures Contents() == old(Contents()) + if old(Avail()) > |bytes| then bytes else []
    {
      if Avail() > |bytes| {
        forall i | 0 <= i < |bytes| {
          data[cur + i] := bytes[i];
        }
        ghost var front := data[..cur];
        assert front == old(Contents());
        cur := cur + |bytes|;
        assert data[..cur] == front + bytes;
      }
    }

    /** Claims bytes that were written in place behind the current end. */
    method Add(len: nat)
      requires Valid() && cur + len <= data.Length
      modifies this
      ensures Valid() && cur == old(cur) + len
      ensures Contents() == old(Contents()) + data[old(cur)..old(cur) + len]
    {
      cur := cur + len;
    }

    method Reset()
      modifies this
      ensures Valid() && Contents() == []
    {
      cur := 0;
    }
  }

  function Reversed(s: string): (r: string)
    ensures |r| == |s|
    ensures forall k :: 0 <= k < |s| ==> r[k] == s[|s| - 1 - k]
  {
    seq(|s|, k requires 0 <= k < |s| => s[|s| - 1 - k])
  }

  /** std::reverse over a[lo..hi]. */
  method ReverseRange(a: array<char>, lo: nat, hi: nat)
    requires lo <= hi <= a.Length
    modifies a
    ensures a[lo..hi] == Reversed(old(a[lo..hi]))
    ensures forall k :: 0 <= k < lo || hi <= k < a.Length ==> a[k] == old(a[k])
  {
    var i, j := lo, hi;
    while i + 1 < j
      invariant lo <= i && j <= hi && i + j == lo + hi && i <= j + 1
      invariant forall k :: lo <= k < i || j <= k < hi ==> a[k] == old(a[lo + hi - 1 - k])
      invariant forall k :: 0 <= k < lo || hi <= k < a.Length || i <= k < j ==> a[k] == old(a[k])
    {
      a[i], a[j - 1] := a[j - 1], a[i];
      i, j := i + 1, j - 1;
    }
    assert forall k :: lo <= k < hi ==> a[k] == old(a[lo + hi - 1 - k]);
    assert forall k :: 0 <= k < hi - lo ==> a[lo..hi][k] == a[lo + k];
  }

  /** C++ integer division and remainder truncate toward zero. */
  function TruncDiv(i: int, d: int): int
    requires d > 0
  {
    if i < 0 then -(-i / d) else i / d
  }

  function TruncMod(i: int, d: int): int
    requires d > 0
  {
    if i < 0 then -(-i % d) else i % d
  }

  const DIGITS: string := "9876543210123456789"

  /** zero[lsd], where zero points at the middle of the digit table. */
  function ZeroTable(lsd: int): char
    requires -9 <= lsd <= 9
  {
    DIGITS[9 + lsd]
  }

  lemma TruncDigit(i: int)
    ensures Abs(TruncDiv(i, 10)) == Dec.Quotient(Abs(i)) && Abs(TruncMod(i, 10)) == Dec.Remainder(Abs(i))
    ensures ZeroTable(TruncMod(i, 10)) == DigitChar(Dec.Remainder(Abs(i)))
    ensures i != 0 ==> Abs(TruncDiv(i, 10)) < Abs(i)
    ensures TruncDiv(i, 10) < 0 ==> i < 0
    ensures TruncDiv(i, 10) > 0 ==> i > 0
  {
  }

  lemma ReversedAppend(low: string, c: char)
    ensures Reversed(low + [c]) == [c] + Reversed(low)
  {
  }

  /** The digits written so far, lowest first, are the low end of the numeral of `total`; n is what is left. */
  predicate Written(radix: Radix, total: nat, n: nat, low: string) {
    Digits(radix, total) == (if low == [] || n != 0 then Digits(radix, n) else []) + Reversed(low)
  }

  lemma DigitsSplit(radix: Radix, n: nat)
    ensures Digits(radix, n) ==
            (if radix.Quotient(n) != 0 then Digits(radix, radix.Quotient(n)) else []) + [DigitChar(radix.Remainder(n))]
  {
  }

  lemma WriteDigit(radix: Radix, total: nat, n: nat, low: string)
    requires Written(radix, total, n, low) && (low == [] || n != 0)
    ensures Written(radix, total, radix.Quotient(n), low + [DigitChar(radix.Remainder(n))])
    ensures |low| < |Digits(radix, total)|
  {
    hide Digits, Reversed, DigitChar;
    var c := DigitChar(radix.Remainder(n));
    var upper := if radix.Quotient(n) != 0 then Digits(radix, radix.Quotient(n)) else [];
    DigitsSplit(radix, n);
    ReversedAppend(low, c);
    assert upper + [c] + Reversed(low) == upper + ([c] + Reversed(low));
  }

  predicate FitsMachineWord(v: int) {
    -0x8000_0000_0000_0000 <= v < 0x1_0000_0000_0000_0000
  }

  /** The do-while loop of convert: the digits of the magnitude, lowest first. */
  method WriteDigits(buf: array<char>, at: nat, value: int) returns (p: nat)
    requires at + |Digits(Dec, Abs(value))| <= buf.Length
    modifies buf
    ensures at <= p <= buf.Length && Reversed(buf[at..p]) == Digits(Dec, Abs(value))
    ensures forall k :: 0 <= k < at || p <= k < buf.Length ==> buf[k] == old(buf[k])
  {
    var i := value;
    p := at;
    while true
      invariant at <= p <= buf.Length
      invariant p == at || i != 0
      invariant Written(Dec, Abs(value), Abs(i), buf[at..p])
      invariant forall k :: 0 <= k < at || p <= k < buf.Length ==> buf[k] == old(buf[k])
      decreases Abs(i)
    {
      ghost var low := buf[at..p];
      TruncDigit(i);
      WriteDigit(Dec, Abs(value), Abs(i), low);
      var lsd := TruncMod(i, 10);
      i := TruncDiv(i, 10);
      buf[p] := ZeroTable(lsd);
      p := p + 1;
      assert buf[at..p] == low + [ZeroTable(lsd)];
      if i == 0 {
        break;
      }
    }
  }

  /** Then the sign: what stands in the buffer is the decimal string back to front. */
  method WriteReversed(buf: array<char>, at: nat, value: int) returns (p: nat)
    requires at + |Decimal(value)| <= buf.Length
    modifies buf
    ensures at <= p <= buf.Length && Reversed(buf[at..p]) == Decimal(value)
    ensures forall k :: 0 <= k < at || p <= k < buf.Length ==> buf[k] == old(buf[k])
  {
    hide Digits, Reversed;
    p := WriteDigits(buf, at, value);
    ghost var low := buf[at..p];
    assert |Reversed(low)| == |Digits(Dec, Abs(value))|;
    if value < 0 {
      buf[p] := '-';
      p := p + 1;
      assert buf[at..p] == low + ['-'];
      ReversedAppend(low, '-');
    }
  }

  /** Terminates the string without counting the terminator, and turns it round. */
  method Terminate(buf: array<char>, at: nat, p: nat) returns (len: nat)
    requires at <= p < buf.Length
    modifies buf
    ensures len == p - at && buf[p] == '\0'
    ensures buf[at..p] == Reversed(old(buf[at..p]))
    ensures forall k :: 0 <= k < at || p < k < buf.Length ==> buf[k] == old(buf[k])
  {
    ghost var before := buf[at..p];
    buf[p] := '\0';
    assert buf[at..p] == before;
    ReverseRange(buf, at, p);
    len := p - at;
  }

  /**
   Writes the decimal string of a value of any integer width and terminates it. The table
   gives the digit of a negative remainder directly, so the value is never negated and the
   most negative one needs no special case.
   */
  method Convert(buf: array<char>, at: nat, value: int) returns (len: nat)
    requires FitsMachineWord(value) && at + MAX_NUMERIC_SIZE <= buf.Length
    modifies buf
    ensures len == |Decimal(value)| && len + 1 <= MAX_NUMERIC_SIZE
    ensures buf[at..at + len] == Decimal(value) && buf[at + len] == '\0'
    ensures forall k :: 0 <= k < at || at + len < k < buf.Length ==> buf[k] == old(buf[k])
  {
    hide Decimal, Digits, Reversed;
    WidthBounds(value);
    var p := WriteReversed(buf, at, value);
    assert p - at == |Reversed(buf[at..p])|;
    len := Terminate(buf, at, p);
  }

  /** The same loop in base 16. */
  method WriteHexDigits(buf: array<char>, at: nat, value: nat) returns (p: nat)
    requires at + |Digits(Hex, value)| <= buf.Length
    modifies buf
    ensures at <= p <= buf.Length && Reversed(buf[at..p]) == Digits(Hex, value)
    ensures forall k :: 0 <= k < at || p <= k < buf.Length ==> buf[k] == old(buf[k])
  {
    var i: nat := value;
    p := at;
    while true
      invariant at <= p <= buf.Length
      invariant p == at || i != 0
      invariant Written(Hex, value, i, buf[at..p])
      invariant forall k :: 0 <= k < at || p <= k < buf.Length ==> buf[k] == old(buf[k])
      decreases i
    {
      ghost var low := buf[at..p];
      WriteDigit(Hex, value, i, low);
      var lsd := i % 16;
      i := i / 16;
      buf[p] := HEX_DIGITS[lsd];
      p := p + 1;
      assert buf[at..p] == low + [DigitChar(lsd)];
      if i == 0 {
        break;
      }
    }
  }

  method ConvertHex(buf: array<char>, at: nat, value: nat) returns (len: nat)
    requires FitsMachineWord(value) && at + MAX_NUMERIC_SIZE - 2 <= buf.Length
    modifies buf
    ensures len == |Digits(Hex, value)| && len <= 16
    ensures buf[at..at + len] == Digits(Hex, value) && buf[at + len] == '\0'
    ensures forall k :: 0 <= k < at || at + len < k < buf.Length ==> buf[k] == old(buf[k])
  {
    hide Digits, Reversed;
    WidthBounds(value);
    var p := WriteHexDigits(buf, at, value);
    assert p - at == |Reversed(buf[at..p])|;
    len := Terminate(buf, at, p);
  }

  class LogStream {
    const buffer: FixedBuffer

    ghost predicate Valid()
      reads this, buffer
    {
      buffer.Valid() && buffer.data.Length == SMALL_BUFFER
    }

    constructor ()
      ensures Valid() && fresh(buffer) && fresh(buffer.data) && buffer.Contents() == []
    {
      buffer := new FixedBuffer(SMALL_BUFFER);
    }

    /** A number goes in whole, in decimal, or not at all. */
    method FormatInteger(v: int)
      requires Valid() && FitsMachineWord(v)
      modifies buffer, buffer.data
      ensures Valid()
      ensures buffer.Contents() ==
              old(buffer.Contents()) + if old(buffer.Avail()) >= MAX_NUMERIC_SIZE then Decimal(v) else []
    {
      if buffer.Avail() >= MAX_NUMERIC_SIZE {
        ghost var before := buffer.Contents();
        var len := Convert(buffer.data, buffer.cur, v);
        assert buffer.Contents() == before;
        buffer.Add(len);
      }
    }

    /** operator<<(const void *). */
    method FormatPointer(v: nat)
      requires Valid() && FitsMachineWord(v)
      modifies buffer, buffer.data
      ensures Valid()
      ensures buffer.Contents() ==
              old(buffer.Contents()) + if old(buffer.Avail()) >= MAX_NUMERIC_SIZE then "0x" + Digits(Hex, v) else []
    {
      if buffer.Avail() >= MAX_NUMERIC_SIZE {
        var buf, at := buffer.data, buffer.cur;
        ghost var before := buffer.Contents();
        buf[at] := '0';
        buf[at + 1] := 'x';
        var len := ConvertHex(buf, at + 2, v);
        assert buffer.Contents() == before;
        assert buf[at..at + len + 2] == "0x" + buf[at + 2..at + 2 + len];
        buffer.Add(len + 2);
      }
    }

    /** operator<<(const char *): None stands for the null pointer. */
    method FormatString(str: Option<string>)
      requires Valid() && (str.Some? ==> |str.value| < INT_LIMIT)
      modifies buffer, buffer.data
      ensures Valid()
      ensures var text := if str.Some? then str.value else "(null)";
              buffer.Contents() == old(buffer.Contents()) + if old(buffer.Avail()) > |text| then text else []
    {
      match str {
        case Some(text) => buffer.Append(text);
        case None => buffer.Append("(null)");
      }
    }
  }
}
