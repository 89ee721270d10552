/** The digital time overlay: `sprintf(time_string, "%02d:%02d:%02d", ...)`
    into a character buffer, and the C string that the text drawing routines
    then read back out of that buffer. */
module TimeText {

  datatype Option<T> = None | Some(value: T)

  /** The three numbers the overlay shows. */
  datatype Fields = Fields(hour: nat, minute: nat, second: nat)

  const NUL: char := 0 as char

  predicate IsDigit(c: char) {
    '0' <= c <= '9'
  }

  predicate AllDigits(s: seq<char>) {
    forall i :: 0 <= i < |s| ==> IsDigit(s[i])
  }

  function DigitValue(c: char): (d: nat)
    requires IsDigit(c)
    ensures d < 10
  {
    c as int - '0' as int
  }

  function DigitChar(d: nat): (c: char)
    requires d < 10
    ensures IsDigit(c) && DigitValue(c) == d
  {
    ('0' as int + d) as char
  }

  /** `%d` of a non-negative number: its decimal digits, no leading zero. */
  function Decimal(n: nat): (r: seq<char>)
    ensures AllDigits(r)
    ensures 1 <= |r|
    ensures n < 10 <==> |r| == 1
    ensures n < 100 ==> |r| <= 2
    ensures |r| > 1 ==> r[0] != '0'
    decreases n
  {
    if n < 10 then [DigitChar(n)] else Decimal(n / 10) + [DigitChar(n % 10)]
  }

  /** The number a string of decimal digits denotes, most significant first. */
  function DecimalValue(s: seq<char>): nat
    requires AllDigits(s)
    decreases |s|
  {
    if s == [] then 0 else DecimalValue(s[..|s| - 1]) * 10 + DigitValue(s[|s| - 1])
  }

  /** `%02d` of a non-negative number: zero-padded to at least two digits. */
  function ZeroPad2(n: nat): (r: seq<char>)
    ensures AllDigits(r)
    ensures |r| >= 2
    ensures n < 100 <==> |r| == 2
  {
    if n < 10 then ['0'] + Decimal(n) else Decimal(n)
  }

  /** `"%02d:%02d:%02d"`. */
  function Format(f: Fields): (r: seq<char>)
    ensures |r| >= 8
    ensures NUL !in r
    ensures f.hour < 100 && f.minute < 100 && f.second < 100 <==> |r| == 8
  {
    ZeroPad2(f.hour) + ":" + ZeroPad2(f.minute) + ":" + ZeroPad2(f.second)
  }

  function TwoDigitValue(hi: char, lo: char): (n: nat)
    requires IsDigit(hi) && IsDigit(lo)
    ensures n < 100
  {
    DigitValue(hi) * 10 + DigitValue(lo)
  }

  /** Reads an `HH:MM:SS` text back; the inverse of Format on two-digit fields. */
  function Parse(t: seq<char>): Option<Fields> {
    if |t| == 8 && IsDigit(t[0]) && IsDigit(t[1]) && t[2] == ':'
       && IsDigit(t[3]) && IsDigit(t[4]) && t[5] == ':'
       && IsDigit(t[6]) && IsDigit(t[7])
    then Some(Fields(TwoDigitValue(t[0], t[1]), TwoDigitValue(t[3], t[4]), TwoDigitValue(t[6], t[7])))
    else None
  }

  /** Printing a number and reading it back gives the number. */
  lemma {:induction false} DecimalRoundTrip(n: nat)
    ensures DecimalValue(Decimal(n)) == n
    decreases n
  {
    if n >= 10 {
      DecimalRoundTrip(n / 10);
      var r := Decimal(n);
      assert r[..|r| - 1] == Decimal(n / 10);
    }
  }

  /** Zero padding does not change the value that is printed. */
  lemma ZeroPad2Value(n: nat)
    ensures DecimalValue(ZeroPad2(n)) == n
  {
    DecimalRoundTrip(n);
    if n < 10 {
      var r := ZeroPad2(n);
      assert r[..1] == ['0'];
      assert DecimalValue(r[..1]) == 0;
    }
  }

  /** A two-digit field is its tens digit followed by its units digit. */
  lemma TwoDigits(n: nat)
    requires n < 100
    ensures ZeroPad2(n) == [DigitChar(n / 10), DigitChar(n % 10)]
  {
    if n >= 10 {
      assert Decimal(n / 10) == [DigitChar(n / 10)];
    }
  }

  /** Two digit characters are the padded print of the number they denote. */
  lemma PadOfDigits(hi: char, lo: char)
    requires IsDigit(hi) && IsDigit(lo)
    ensures ZeroPad2(TwoDigitValue(hi, lo)) == [hi, lo]
  {
    var n := TwoDigitValue(hi, lo);
    TwoDigits(n);
    assert n / 10 == DigitValue(hi) && n % 10 == DigitValue(lo);
  }

  /** Formatting fields below 100 and parsing the text gives the fields back. */
  lemma FormatThenParse(f: Fields)
    requires f.hour < 100 && f.minute < 100 && f.second < 100
    ensures Parse(Format(f)) == Some(f)
  {
    TwoDigits(f.hour);
    TwoDigits(f.minute);
    TwoDigits(f.second);
    var t := Format(f);
    assert t == [DigitChar(f.hour / 10), DigitChar(f.hour % 10), ':',
                 DigitChar(f.minute / 10), DigitChar(f.minute % 10), ':',
                 DigitChar(f.second / 10), DigitChar(f.second % 10)];
  }

  /** Every text that parses is exactly the format of what it parses to. */
  lemma ParseThenFormat(t: seq<char>)
    requires Parse(t).Some?
    ensures Format(Parse(t).value) == t
  {
    PadOfDigits(t[0], t[1]);
    PadOfDigits(t[3], t[4]);
    PadOfDigits(t[6], t[7]);
    assert t == [t[0], t[1]] + ":" + [t[3], t[4]] + ":" + [t[6], t[7]];
  }

  /** The capacity of `time_string` as declared (`char time_string[8]`). */
  const TIME_STRING_CAPACITY_AS_WRITTEN: nat := 8

  /** The capacity the eight characters and the terminating NUL need. */
  const TIME_STRING_CAPACITY: nat := 9

  /** `sprintf` of `text` into a buffer of `capacity` characters: the bytes it
      writes (the text and a terminating NUL), or None when they do not fit
      and the call writes past the end of the buffer. */
  function SprintfInto(capacity: nat, text: seq<char>): (r: Option<seq<char>>)
    ensures r.Some? <==> |text| < capacity
    ensures r.Some? ==> |r.value| == |text| + 1 <= capacity && r.value[|text|] == NUL
    ensures r.Some? ==> r.value[..|text|] == text
  {
    if |text| + 1 <= capacity then Some(text + [NUL]) else None
  }

  /** The C string held in a buffer: everything before the first NUL. */
  function ReadCString(buf: seq<char>): (r: seq<char>)
    ensures |r| <= |buf| && NUL !in r
    ensures r == buf[..|r|]
    ensures |r| == |buf| || buf[|r|] == NUL
    decreases |buf|
  {
    if buf == [] || buf[0] == NUL then [] else [buf[0]] + ReadCString(buf[1..])
  }

  /** A text without NUL, written with its terminator, reads back unchanged. */
  lemma {:induction false} ReadBackWritten(text: seq<char>)
    requires NUL !in text
    ensures ReadCString(text + [NUL]) == text
    decreases |text|
  {
    if text != [] {
      ReadBackWritten(text[1..]);
      assert (text + [NUL])[1..] == text[1..] + [NUL];
    }
  }

  /** As declared, the buffer is one character short for every time text:
      the terminating NUL is written past its end. */
  lemma TimeStringOverflowsAsWritten(f: Fields)
    ensures SprintfInto(TIME_STRING_CAPACITY_AS_WRITTEN, Format(f)).None?
  {
  }

  /** With room for the terminator the text fits, and the drawing routines
      read back exactly the formatted time. */
  lemma TimeStringFits(f: Fields)
    requires f.hour < 100 && f.minute < 100 && f.second < 100
    ensures SprintfInto(TIME_STRING_CAPACITY, Format(f)).Some?
    ensures ReadCString(SprintfInto(TIME_STRING_CAPACITY, Format(f)).value) == Format(f)
  {
    ReadBackWritten(Format(f));
  }
}
