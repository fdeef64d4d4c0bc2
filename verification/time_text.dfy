/** Schedule times are "HH:MM" strings.  The server reads them with
    `time.split(':').map(Number)`; the browser orders them by
    `parseInt(time.replace(':', ''))`. */
module TimeText {
  import opened Wrappers

  datatype TimeOfDay = TimeOfDay(hour: int, minute: int)

  predicate IsDigit(c: char) {
    '0' <= c <= '9'
  }

  predicate AllDigits(s: string) {
    forall i :: 0 <= i < |s| ==> IsDigit(s[i])
  }

  /** Decimal value of a digit string, as `Number` reads it. */
  function DigitsValue(s: string): (n: nat)
    requires AllDigits(s)
  {
    if s == [] then 0
    else 10 * DigitsValue(s[..|s| - 1]) + (s[|s| - 1] as int - '0' as int)
  }

  /** Position of the first ':' in s, if any. */
  function FirstColon(s: string): (r: Option<nat>)
    ensures r.Some? ==> r.value < |s| && s[r.value] == ':' && ':' !in s[..r.value]
    ensures r.None? ==> ':' !in s
  {
    if s == [] then None
    else if s[0] == ':' then Some(0)
    else match FirstColon(s[1..])
      case None => None
      case Some(i) => Some(i + 1)
  }

  /** The hour and minute the server reads from a time string: the digits
      before and after its colon.  Defined for 24-hour `H:MM` strings; any
      other string yields None. */
  function ParseTime(t: string): (r: Option<TimeOfDay>)
    ensures r.Some? ==> 0 <= r.value.hour < 24 && 0 <= r.value.minute < 60
  {
    match FirstColon(t)
    case None => None
    case Some(i) =>
      var h, m := t[..i], t[i + 1..];
      if h != [] && m != [] && AllDigits(h) && AllDigits(m)
         && DigitsValue(h) < 24 && DigitsValue(m) < 60
      then Some(TimeOfDay(DigitsValue(h), DigitsValue(m)))
      else None
  }

  /** The first colon of `h + ":" + m` for a colon-free `h` is the one after `h`. */
  lemma FirstColonAfter(h: string, m: string)
    requires ':' !in h
    ensures FirstColon(h + ":" + m) == Some(|h|)
  {
    var s := h + ":" + m;
    assert s[|h|] == ':';
    assert forall k :: 0 <= k < |h| ==> s[k] == h[k];
    var j := FirstColon(s).value;
    assert j <= |h| ==> s[..j] == h[..j];
  }

  /** Any digit strings around one colon are read as hour and minute, so
      unpadded times such as "8:15" parse like "08:15". */
  lemma ParseTimeDigits(h: string, m: string)
    requires h != [] && m != [] && AllDigits(h) && AllDigits(m)
    requires DigitsValue(h) < 24 && DigitsValue(m) < 60
    ensures ParseTime(h + ":" + m) == Some(TimeOfDay(DigitsValue(h), DigitsValue(m)))
  {
    var s := h + ":" + m;
    assert forall k :: 0 <= k < |h| ==> h[k] != ':';
    FirstColonAfter(h, m);
    assert s[..|h|] == h && s[|h| + 1..] == m;
  }

  /** Two-digit, zero-padded decimal text of n. */
  function Pad2(n: int): (s: string)
    requires 0 <= n < 100
    ensures |s| == 2 && AllDigits(s) && DigitsValue(s) == n
  {
    var s := [('0' as int + n / 10) as char, ('0' as int + n % 10) as char];
    assert s[..1][..0] == [];
    assert DigitsValue(s[..1]) == n / 10;
    assert DigitsValue(s) == 10 * (n / 10) + n % 10;
    s
  }

  /** The "HH:MM" text of a time of day, as the dataset writes it. */
  function FormatTime(t: TimeOfDay): string
    requires 0 <= t.hour < 24 && 0 <= t.minute < 60
  {
    Pad2(t.hour) + ":" + Pad2(t.minute)
  }

  /** Reading back a formatted time gives the same hour and minute. */
  lemma ParseFormatTime(t: TimeOfDay)
    requires 0 <= t.hour < 24 && 0 <= t.minute < 60
    ensures ParseTime(FormatTime(t)) == Some(t)
  {
    var s := FormatTime(t);
    assert s[0] != ':' && s[1] != ':' && s[2] == ':';
    assert FirstColon(s[2..]) == Some(0);
    assert FirstColon(s[1..]) == Some(1) by {
      assert s[1..][1..] == s[2..];
    }
    assert FirstColon(s) == Some(2);
    assert s[..2] == Pad2(t.hour) && s[3..] == Pad2(t.minute);
  }

  /** s with its first ':' removed (`String.prototype.replace(':', '')`). */
  function RemoveFirstColon(s: string): (r: string)
    ensures FirstColon(s).Some? ==> r == s[..FirstColon(s).value] + s[FirstColon(s).value + 1..]
    ensures ':' in s ==> |r| == |s| - 1
    ensures ':' !in s ==> r == s
  {
    match FirstColon(s)
    case None => s
    case Some(i) => s[..i] + s[i + 1..]
  }

  /** Length of the longest all-digit prefix of s. */
  function DigitPrefixLength(s: string): (n: nat)
    ensures n <= |s| && AllDigits(s[..n]) && (n < |s| ==> !IsDigit(s[n]))
  {
    if s == [] || !IsDigit(s[0]) then 0
    else
      var n := 1 + DigitPrefixLength(s[1..]);
      assert s[..n] == [s[0]] + s[1..][..n - 1];
      n
  }

  /** The browser's sort key for a time: `parseInt` of the text with its first
      colon removed, i.e. the value of the leading digits. */
  function TimeKey(t: string): nat {
    var s := RemoveFirstColon(t);
    DigitsValue(s[..DigitPrefixLength(s)])
  }

  lemma DigitsValue4(s: string)
    requires |s| == 4 && AllDigits(s)
    ensures DigitsValue(s) == DigitsValue(s[..2]) * 100 + DigitsValue(s[2..])
  {
    var d2, d3 := s[2] as int - '0' as int, s[3] as int - '0' as int;
    assert s[..3][..2] == s[..2];
    assert DigitsValue(s) == 10 * DigitsValue(s[..3]) + d3;
    assert DigitsValue(s[..3]) == 10 * DigitsValue(s[..2]) + d2;
    assert s[2..][..1] == s[2..3];
    assert s[2..3][..0] == [];
    assert DigitsValue(s[2..3]) == d2;
    assert DigitsValue(s[2..]) == 10 * d2 + d3;
  }

  /** The sort key of "HH:MM" is the number HHMM = 100 * HH + MM. */
  lemma TimeKeyOfFormatted(t: TimeOfDay)
    requires 0 <= t.hour < 24 && 0 <= t.minute < 60
    ensures TimeKey(FormatTime(t)) == 100 * t.hour + t.minute
  {
    var f := FormatTime(t);
    assert FirstColon(f[2..]) == Some(0);
    assert FirstColon(f[1..]) == Some(1) by {
      assert f[1..][1..] == f[2..];
    }
    assert FirstColon(f) == Some(2);
    var s := RemoveFirstColon(f);
    assert s == Pad2(t.hour) + Pad2(t.minute);
    assert DigitPrefixLength(s) == 4 by {
      assert s[4..] == [];
      assert s[3..][1..] == s[4..];
      assert s[2..][1..] == s[3..];
      assert s[1..][1..] == s[2..];
    }
    assert s[..4] == s;
    DigitsValue4(s);
    assert s[..2] == Pad2(t.hour) && s[2..] == Pad2(t.minute);
  }

  /** For dataset-formatted times, ordering by sort key is chronological order. */
  lemma TimeKeyChronological(a: TimeOfDay, b: TimeOfDay)
    requires 0 <= a.hour < 24 && 0 <= a.minute < 60
    requires 0 <= b.hour < 24 && 0 <= b.minute < 60
    ensures TimeKey(FormatTime(a)) < TimeKey(FormatTime(b))
            <==> a.hour < b.hour || (a.hour == b.hour && a.minute < b.minute)
  {
    TimeKeyOfFormatted(a);
    TimeKeyOfFormatted(b);
  }
}
