/** The clock text of the timer card: `formatTime`, which shows a number
    of seconds as hours, minutes and seconds, and a reader that takes the
    text back to the seconds it shows. */
module Clock {
  import opened Types
  import opened Decimal

  /** formatTime for a whole number of seconds: `H:MM:SS` from an hour on,
      `M:SS` below it. The text always ends in a colon and two digits of
      seconds, and what comes before holds a colon exactly when hours are
      shown. */
  function FormatSeconds(t: nat): (r: string)
    ensures |r| >= 4 && r[|r| - 3] == ':' && Number(r[|r| - 2..])
    ensures ':' in r[..|r| - 3] <==> t >= 3600
  {
    var hours := t / 3600;
    var minutes := (t % 3600) / 60;
    var secs := t % 60;
    Recombine(t);
    if hours > 0 then
      var r := NatToString(hours) + ":" + PadTwo(minutes) + ":" + PadTwo(secs);
      assert r[..|r| - 3] == NatToString(hours) + ":" + PadTwo(minutes);
      assert r[|r| - 2..] == PadTwo(secs);
      assert r[..|r| - 3][|NatToString(hours)|] == ':';
      r
    else
      var r := NatToString(minutes) + ":" + PadTwo(secs);
      assert r[..|r| - 3] == NatToString(minutes);
      assert r[|r| - 2..] == PadTwo(secs);
      NoColon(NatToString(minutes));
      r
  }

  /** formatTime for a time in milliseconds: the whole seconds it holds. */
  function FormatTime(ms: nat): string {
    FormatSeconds(ms / 1000)
  }

  /** A non-empty run of digits. */
  predicate Number(s: string) {
    |s| > 0 && AllDigits(s)
  }

  /** No digit is a colon. */
  lemma DigitAt(a: string, i: int)
    requires AllDigits(a)
    ensures 0 <= i < |a| ==> a[i] != ':'
  {
  }

  lemma NoColon(s: string)
    requires AllDigits(s)
    ensures ':' !in s
  {
    assert forall i :: 0 <= i < |s| ==> s[i] != ':';
  }

  /** Reads back exactly the text formatTime writes: `H:MM:SS` with at
      least one hour, or `M:SS` with fewer than sixty minutes, where the
      leading field is written without leading zeros and minutes and
      seconds shown with two digits are below sixty. The two digits after
      the last colon are the seconds; when a colon stands three places
      before that one, the two digits between them are the minutes and
      what precedes the hours, otherwise what precedes the last colon is
      the minutes. None for any other text. */
  function ParseClock(s: string): Option<nat> {
    var n := |s|;
    if n < 4 || s[n - 3] != ':' || !Number(s[n - 2..]) || ParseDigits(s[n - 2..]) >= 60 then None
    else if n >= 7 && s[n - 6] == ':' then
      if Canonical(s[..n - 6]) && ParseDigits(s[..n - 6]) > 0
         && Number(s[n - 5..n - 3]) && ParseDigits(s[n - 5..n - 3]) < 60
      then Some(ParseDigits(s[..n - 6]) * 3600 + ParseDigits(s[n - 5..n - 3]) * 60 + ParseDigits(s[n - 2..]))
      else None
    else if Canonical(s[..n - 3]) && ParseDigits(s[..n - 3]) < 60
    then Some(ParseDigits(s[..n - 3]) * 60 + ParseDigits(s[n - 2..]))
    else None
  }

  /** Division by a constant has one quotient and one remainder. */
  lemma Unique60(x: int, q: int, r: int)
    requires x == 60 * q + r && 0 <= r < 60
    ensures x / 60 == q && x % 60 == r
  {
  }

  lemma Unique1000(x: int, q: int, r: int)
    requires x == 1000 * q + r && 0 <= r < 1000
    ensures x / 1000 == q && x % 1000 == r
  {
  }

  lemma Unique3600(x: int, q: int, r: int)
    requires x == 3600 * q + r && 0 <= r < 3600
    ensures x / 3600 == q && x % 3600 == r
  {
  }

  lemma Unique60000(x: int, q: int, r: int)
    requires x == 60000 * q + r && 0 <= r < 60000
    ensures x / 60000 == q && x % 60000 == r
  {
  }

  lemma Unique3600000(x: int, q: int, r: int)
    requires x == 3600000 * q + r && 0 <= r < 3600000
    ensures x / 3600000 == q && x % 3600000 == r
  {
  }

  /** Hours, minutes and seconds recombine into the seconds they came
      from. */
  lemma Recombine(t: nat)
    ensures (t / 3600) * 3600 + ((t % 3600) / 60) * 60 + t % 60 == t
    ensures (t % 3600) / 60 < 60
  {
    var h := t / 3600;
    var u := t % 3600;
    var m := u / 60;
    var v := u % 60;
    assert t == 3600 * h + u;
    assert u == 60 * m + v;
    Unique60(t, 60 * h + m, v);
  }

  /** Reading the clock text back gives the whole seconds shown. */
  lemma ClockRoundTrip(t: nat)
    ensures ParseClock(FormatSeconds(t)) == Some(t)
  {
    if t / 3600 > 0 {
      HoursRoundTrip(t);
    } else {
      MinutesRoundTrip(t);
    }
  }

  lemma HoursRoundTrip(t: nat)
    requires t / 3600 > 0
    ensures ParseClock(FormatSeconds(t)) == Some(t)
  {
    var h, m, sec := t / 3600, (t % 3600) / 60, t % 60;
    Recombine(t);
    HoursShape(t);
    ReadHours(t, h, m, sec);
  }

  lemma MinutesRoundTrip(t: nat)
    requires t / 3600 == 0
    ensures ParseClock(FormatSeconds(t)) == Some(t)
  {
    var m, sec := (t % 3600) / 60, t % 60;
    Recombine(t);
    MinutesShape(t);
    ReadMinutes(t, m, sec);
  }

  lemma ReadHours(t: nat, h: nat, m: nat, sec: nat)
    requires h > 0 && m < 60 && sec < 60 && t == h * 3600 + m * 60 + sec
    ensures ParseClock(NatToString(h) + ":" + PadTwo(m) + ":" + PadTwo(sec)) == Some(t)
  {
    var a, b, c := NatToString(h), PadTwo(m), PadTwo(sec);
    NatRoundTrip(h);
    NatToStringCanonical(h);
    ReadThree(a, b, c, h, m, sec);
  }

  lemma ReadMinutes(t: nat, m: nat, sec: nat)
    requires m < 60 && sec < 60 && t == m * 60 + sec
    ensures ParseClock(NatToString(m) + ":" + PadTwo(sec)) == Some(t)
  {
    var a, b := NatToString(m), PadTwo(sec);
    NatRoundTrip(m);
    NatToStringCanonical(m);
    ReadTwo(a, b, m, sec);
  }

  /** Hours, two digits of minutes and two of seconds joined by colons read
      back as the seconds they make up. */
  lemma ReadThree(a: string, b: string, c: string, h: nat, m: nat, sec: nat)
    requires Canonical(a) && Number(b) && Number(c) && |b| == 2 && |c| == 2
    requires ParseDigits(a) == h && ParseDigits(b) == m && ParseDigits(c) == sec
    requires h > 0 && m < 60 && sec < 60
    ensures ParseClock(a + ":" + b + ":" + c) == Some(h * 3600 + m * 60 + sec)
  {
    var s := a + ":" + b + ":" + c;
    PiecesThree(a, b, c);
    ReadThreeAt(s, |a|, h, m, sec);
  }

  /** Minutes and two digits of seconds joined by a colon read back as the
      seconds they make up. */
  lemma ReadTwo(a: string, b: string, m: nat, sec: nat)
    requires Canonical(a) && Number(b) && |b| == 2
    requires ParseDigits(a) == m && ParseDigits(b) == sec
    requires m < 60 && sec < 60
    ensures ParseClock(a + ":" + b) == Some(m * 60 + sec)
  {
    var s := a + ":" + b;
    PiecesTwo(a, b);
    ReadTwoAt(s, |a|, m, sec);
  }

  /** Text of the form `H:MM:SS`, given by the positions of its colons,
      reads back as the seconds it makes up. */
  lemma ReadThreeAt(s: string, j: nat, h: nat, m: nat, sec: nat)
    requires j + 6 == |s| && s[j] == ':' && s[j + 3] == ':'
    requires Canonical(s[..j]) && Number(s[j + 1..j + 3]) && Number(s[j + 4..])
    requires ParseDigits(s[..j]) == h && ParseDigits(s[j + 1..j + 3]) == m && ParseDigits(s[j + 4..]) == sec
    requires h > 0 && m < 60 && sec < 60
    ensures ParseClock(s) == Some(h * 3600 + m * 60 + sec)
  {
  }

  /** Text of the form `M:SS`, given by the position of its colon, reads
      back as the seconds it makes up. */
  lemma ReadTwoAt(s: string, k: nat, m: nat, sec: nat)
    requires k + 3 == |s| && s[k] == ':'
    requires Canonical(s[..k]) && Number(s[k + 1..])
    requires ParseDigits(s[..k]) == m && ParseDigits(s[k + 1..]) == sec
    requires m < 60 && sec < 60
    ensures ParseClock(s) == Some(m * 60 + sec)
  {
    DigitAt(s[..k], k - 3);
  }

  /** The numbers of `a:b:c` sit at the positions of its colons. */
  lemma PiecesThree(a: string, b: string, c: string)
    requires Canonical(a) && Number(b) && Number(c) && |b| == 2 && |c| == 2
    ensures var s := a + ":" + b + ":" + c;
      && |s| == |a| + 6 && s[|a|] == ':' && s[|a| + 3] == ':'
      && Canonical(s[..|a|]) && Number(s[|a| + 1..|a| + 3]) && Number(s[|a| + 4..])
      && ParseDigits(s[..|a|]) == ParseDigits(a)
      && ParseDigits(s[|a| + 1..|a| + 3]) == ParseDigits(b)
      && ParseDigits(s[|a| + 4..]) == ParseDigits(c)
  {
    var s := a + ":" + b + ":" + c;
    assert s[..|a|] == a;
    assert s[|a| + 1..|a| + 3] == b;
    assert s[|a| + 4..] == c;
  }

  /** The numbers of `a:b` sit either side of its colon. */
  lemma PiecesTwo(a: string, b: string)
    requires Canonical(a) && Number(b) && |b| == 2
    ensures var s := a + ":" + b;
      && |s| == |a| + 3 && s[|a|] == ':'
      && Canonical(s[..|a|]) && Number(s[|a| + 1..])
      && ParseDigits(s[..|a|]) == ParseDigits(a) && ParseDigits(s[|a| + 1..]) == ParseDigits(b)
  {
    var s := a + ":" + b;
    assert s[..|a|] == a;
    assert s[|a| + 1..] == b;
  }

  /** Text the reader accepts is the formatted text of the seconds it
      reads, so no other spelling of a time is accepted. */
  lemma ClockTextUnique(s: string)
    requires ParseClock(s).Some?
    ensures s == FormatSeconds(ParseClock(s).value)
  {
    var n := |s|;
    if n >= 7 && s[n - 6] == ':' {
      HoursTextUnique(s);
    } else {
      MinutesTextUnique(s);
    }
  }

  lemma HoursTextUnique(s: string)
    requires ParseClock(s).Some? && |s| >= 7 && s[|s| - 6] == ':'
    ensures s == FormatSeconds(ParseClock(s).value)
  {
    var n := |s|;
    var a, b, c := s[..n - 6], s[n - 5..n - 3], s[n - 2..];
    var h, m, sec := ParsedHours(s);
    CanonicalIsText(a);
    TwoDigitsArePadded(b);
    TwoDigitsArePadded(c);
    SplitThree(s);
    ShowsHours(ParseClock(s).value, h, m, sec);
  }

  /** The fields of accepted `H:MM:SS` text and the seconds read from it. */
  lemma ParsedHours(s: string) returns (h: nat, m: nat, sec: nat)
    requires ParseClock(s).Some? && |s| >= 7 && s[|s| - 6] == ':'
    ensures var n := |s|;
      && Canonical(s[..n - 6]) && ParseDigits(s[..n - 6]) == h
      && AllDigits(s[n - 5..n - 3]) && |s[n - 5..n - 3]| == 2 && ParseDigits(s[n - 5..n - 3]) == m
      && AllDigits(s[n - 2..]) && |s[n - 2..]| == 2 && ParseDigits(s[n - 2..]) == sec
      && h > 0 && m < 60 && sec < 60
      && ParseClock(s) == Some(h * 3600 + m * 60 + sec)
  {
    var n := |s|;
    h, m, sec := ParseDigits(s[..n - 6]), ParseDigits(s[n - 5..n - 3]), ParseDigits(s[n - 2..]);
  }

  /** `H:MM:SS` text is its three fields joined by colons. */
  lemma SplitThree(s: string)
    requires |s| >= 7 && s[|s| - 6] == ':' && s[|s| - 3] == ':'
    ensures var n := |s|; s == s[..n - 6] + ":" + s[n - 5..n - 3] + ":" + s[n - 2..]
  {
  }

  lemma MinutesTextUnique(s: string)
    requires ParseClock(s).Some? && !(|s| >= 7 && s[|s| - 6] == ':')
    ensures s == FormatSeconds(ParseClock(s).value)
  {
    var n := |s|;
    var a, c := s[..n - 3], s[n - 2..];
    var m, sec := ParseDigits(a), ParseDigits(c);
    assert ParseClock(s) == Some(m * 60 + sec);
    CanonicalIsText(a);
    TwoDigitsArePadded(c);
    assert s == a + ":" + c;
    ShowsMinutes(ParseClock(s).value, m, sec);
  }

  /** The seconds of at least one hour are shown with their hours, minutes
      and seconds. */
  lemma ShowsHours(t: nat, h: nat, m: nat, sec: nat)
    requires h > 0 && m < 60 && sec < 60 && t == h * 3600 + m * 60 + sec
    ensures FormatSeconds(t) == NatToString(h) + ":" + PadTwo(m) + ":" + PadTwo(sec)
  {
    Components(t, h, m, sec);
    HoursShape(t);
  }

  /** Fewer than sixty minutes are shown as minutes and seconds. */
  lemma ShowsMinutes(t: nat, m: nat, sec: nat)
    requires m < 60 && sec < 60 && t == m * 60 + sec
    ensures FormatSeconds(t) == NatToString(m) + ":" + PadTwo(sec)
  {
    Components(t, 0, m, sec);
    MinutesShape(t);
  }

  /** Hours, minutes below sixty and seconds below sixty are the components
      of the seconds they make up. */
  lemma Components(t: nat, h: nat, m: nat, sec: nat)
    requires m < 60 && sec < 60 && t == h * 3600 + m * 60 + sec
    ensures t / 3600 == h && (t % 3600) / 60 == m && t % 60 == sec
  {
    var u := m * 60 + sec;
    assert u < 3600;
    Unique3600(t, h, u);
    Unique60(u, m, sec);
    Unique60(t, h * 60 + m, sec);
  }

  lemma HoursShape(t: nat)
    requires t / 3600 > 0
    ensures FormatSeconds(t) == NatToString(t / 3600) + ":" + PadTwo((t % 3600) / 60) + ":" + PadTwo(t % 60)
  {
  }

  lemma MinutesShape(t: nat)
    requires t / 3600 == 0
    ensures FormatSeconds(t) == NatToString((t % 3600) / 60) + ":" + PadTwo(t % 60)
  {
  }

  /** Two times show the same text exactly when they hold the same whole
      seconds. */
  lemma SameTextSameSeconds(a: nat, b: nat)
    ensures FormatTime(a) == FormatTime(b) <==> a / 1000 == b / 1000
  {
    ClockRoundTrip(a / 1000);
    ClockRoundTrip(b / 1000);
  }

  /** Taking whole seconds first and then hours, minutes and seconds gives
      the components the fractional-second formulas give for the same
      milliseconds. */
  lemma WholeSecondsFirst(ms: nat)
    ensures (ms / 1000) / 3600 == ms / 3600000
    ensures ((ms / 1000) % 3600) / 60 == (ms % 3600000) / 60000
    ensures (ms / 1000) % 60 == (ms % 60000) / 1000
  {
    HoursFirst(ms);
    MinutesFirst(ms);
    SecondsFirst(ms);
  }

  lemma HoursFirst(ms: nat)
    ensures (ms / 1000) / 3600 == ms / 3600000
    ensures ms % 3600000 == 1000 * ((ms / 1000) % 3600) + ms % 1000
  {
    var t, r := ms / 1000, ms % 1000;
    var h, u := t / 3600, t % 3600;
    assert ms == 3600000 * h + (1000 * u + r);
    Unique3600000(ms, h, 1000 * u + r);
  }

  lemma MinutesFirst(ms: nat)
    ensures ((ms / 1000) % 3600) / 60 == (ms % 3600000) / 60000
  {
    HoursFirst(ms);
    var u, r := (ms / 1000) % 3600, ms % 1000;
    var m, v := u / 60, u % 60;
    assert 1000 * u + r == 60000 * m + (1000 * v + r);
    Unique60000(1000 * u + r, m, 1000 * v + r);
  }

  lemma SecondsFirst(ms: nat)
    ensures (ms / 1000) % 60 == (ms % 60000) / 1000
  {
    var t, r := ms / 1000, ms % 1000;
    var m, v := t / 60, t % 60;
    assert ms == 60000 * m + (1000 * v + r);
    Unique60000(ms, m, 1000 * v + r);
    Unique1000(1000 * v + r, v, r);
  }
}
