/** The texts the page shows for durations: `formatDuration` for each video
    and the total line of `displayTotalDuration`. */
module Display {
  import opened Wrappers
  import opened Text
  import opened Durations

  /** A number and its unit, as in `5m `. */
  function Segment(n: nat, unit: string): string {
    NatToString(n) + unit
  }

  /** `formatDuration`: `"{h}h {m}m {s}s"`, with the hours segment left out
      when hours is 0 (0 is falsy). The text loses nothing: reading it back
      gives the duration. */
  function FormatDuration(d: Duration): (r: string)
    ensures ReadDisplay(r) == Some(d)
  {
    var r := (if d.hours != 0 then Segment(d.hours, "h ") else "")
      + (Segment(d.minutes, "m ") + Segment(d.seconds, "s"));
    if d.hours != 0 then
      ReadWithHours(d, r);
      r
    else
      ReadWithoutHours(d, r);
      r
  }

  /** The three segments, hours included whatever their value, as the total
      line prints them. Reading it back gives the duration. */
  function FullFormat(d: Duration): (r: string)
    ensures ReadDisplay(r) == Some(d)
    ensures |Segment(d.hours, "h ")| <= |r| && r[..|Segment(d.hours, "h ")|] == Segment(d.hours, "h ")
  {
    var r := Segment(d.hours, "h ") + (Segment(d.minutes, "m ") + Segment(d.seconds, "s"));
    ReadWithHours(d, r);
    r
  }

  /** The total line: the summed triple is normalized first, and its hours
      segment is always shown. */
  function TotalDurationText(total: Duration): (r: string)
    ensures exists d :: (IsNormal(d) && TotalSeconds(d) == TotalSeconds(total)
      && r == "Total Duration: " + FullFormat(d))
  {
    "Total Duration: " + FullFormat(Normalize(total))
  }

  /** The per-video text and the full three-segment text agree exactly when
      hours is not 0; when it is 0, the per-video text is the full text
      without its `0h ` segment. */
  lemma FormatOmitsZeroHours(d: Duration)
    ensures FormatDuration(d) == FullFormat(d) <==> d.hours != 0
    ensures d.hours == 0 ==> FullFormat(d) == "0h " + FormatDuration(d)
  {
    var tail := Segment(d.minutes, "m ") + Segment(d.seconds, "s");
    if d.hours == 0 {
      assert Segment(0, "h ") == "0h ";
      assert FullFormat(d) == "0h " + tail;
      assert FormatDuration(d) == tail;
    }
  }

  /** `s[i..]` starts with the characters of `lit`. */
  predicate LiteralAt(s: string, i: nat, lit: string) {
    i + |lit| <= |s| && s[i..i + |lit|] == lit
  }

  /** A number at `i` followed by `unit`: the number and the position after
      the unit. The digits must be the numeral a template literal prints for
      that number, so a zero-padded `05` is not read. */
  function ReadSegment(t: string, i: nat, unit: string): Option<(nat, nat)>
    requires i <= |t|
  {
    match ReadNat(t, i)
    case Some((n, j)) =>
      if t[i..j] == NatToString(n) && LiteralAt(t, j, unit) then Some((n, j + |unit|)) else None
    case None => None
  }

  /** Reads a displayed duration back: an optional `<h>h ` segment, then the
      minutes and seconds segments, then the end of the text. */
  function ReadDisplay(t: string): Option<Duration> {
    match ReadSegment(t, 0, "h ")
    case Some((h, i)) => ReadMinutesSeconds(t, i, h)
    case None => ReadMinutesSeconds(t, 0, 0)
  }

  function ReadMinutesSeconds(t: string, i: nat, hours: nat): Option<Duration>
    requires i <= |t|
  {
    match ReadSegment(t, i, "m ")
    case None => None
    case Some((m, j)) =>
      match ReadSegment(t, j, "s")
      case Some((s, k)) => if k == |t| then Some(Duration(hours, m, s)) else None
      case None => None
  }

  /** A printed segment is read back as its number when its unit is the one
      expected. */
  lemma ReadSegmentMatch(t: string, i: nat, n: nat, unit: string, rest: string)
    requires |unit| > 0 && !IsDigit(unit[0])
    requires i <= |t| && t[i..] == NatToString(n) + (unit + rest)
    ensures ReadSegment(t, i, unit) == Some((n, i + |NatToString(n)| + |unit|))
  {
    var L := |NatToString(n)|;
    ReadNatAt(t, i, n, unit + rest);
    SkipFront(t, i, NatToString(n), unit + rest);
    assert t[i + L..i + L + |unit|] == t[i + L..][..|unit|];
  }

  /** A printed segment whose unit starts differently is not read. */
  lemma ReadSegmentMismatch(t: string, i: nat, n: nat, written: string, rest: string, unit: string)
    requires |written| > 0 && !IsDigit(written[0])
    requires |unit| > 0 && unit[0] != written[0]
    requires i <= |t| && t[i..] == NatToString(n) + (written + rest)
    ensures ReadSegment(t, i, unit) == None
  {
    var L := |NatToString(n)|;
    ReadNatAt(t, i, n, written + rest);
    SkipFront(t, i, NatToString(n), written + rest);
    assert t[i + L] == written[0];
  }

  lemma ReadNatAt(t: string, i: nat, n: nat, rest: string)
    requires rest == [] || !IsDigit(rest[0])
    requires i <= |t| && t[i..] == NatToString(n) + rest
    ensures ReadNat(t, i) == Some((n, i + |NatToString(n)|))
  {
    var L := |NatToString(n)|;
    assert t[i..i + L] == t[i..][..L];
    assert i + L < |t| ==> t[i + L] == t[i..][L];
    ReadNatOfNatToString(t, i, n);
  }

  /** Reading the minutes and seconds segments back. */
  lemma ReadMinutesSecondsOf(t: string, i: nat, d: Duration)
    requires i <= |t| && t[i..] == Segment(d.minutes, "m ") + Segment(d.seconds, "s")
    ensures ReadMinutesSeconds(t, i, d.hours) == Some(d)
  {
    var j := i + |NatToString(d.minutes)| + 2;
    ReadMinutesAt(t, i, d.minutes, Segment(d.seconds, "s"));
    ReadSecondsAt(t, j, d.seconds);
    ReadMinutesSecondsFrom(t, i, d.hours, d.minutes, j, d.seconds);
  }

  /** The minutes segment, read where it is printed. */
  lemma ReadMinutesAt(t: string, i: nat, m: nat, rest: string)
    requires i <= |t| && t[i..] == Segment(m, "m ") + rest
    ensures i + |NatToString(m)| + 2 <= |t|
    ensures t[i + |NatToString(m)| + 2..] == rest
    ensures ReadSegment(t, i, "m ") == Some((m, i + |NatToString(m)| + 2))
  {
    assert t[i..] == NatToString(m) + ("m " + rest);
    ReadSegmentMatch(t, i, m, "m ", rest);
    SkipFront(t, i, NatToString(m) + "m ", rest);
  }

  /** The seconds segment, read where it is printed at the end of the text. */
  lemma ReadSecondsAt(t: string, j: nat, s: nat)
    requires j <= |t| && t[j..] == Segment(s, "s")
    ensures ReadSegment(t, j, "s") == Some((s, |t|))
  {
    assert t[j..] == NatToString(s) + ("s" + "");
    ReadSegmentMatch(t, j, s, "s", "");
  }

  lemma ReadMinutesSecondsFrom(t: string, i: nat, hours: nat, m: nat, j: nat, s: nat)
    requires i <= |t| && j <= |t|
    requires ReadSegment(t, i, "m ") == Some((m, j))
    requires ReadSegment(t, j, "s") == Some((s, |t|))
    ensures ReadMinutesSeconds(t, i, hours) == Some(Duration(hours, m, s))
  {
  }

  /** A text that starts with an hours segment, even `0h `, is read back
      whole. */
  lemma ReadWithHours(d: Duration, t: string)
    requires t == Segment(d.hours, "h ") + (Segment(d.minutes, "m ") + Segment(d.seconds, "s"))
    ensures ReadDisplay(t) == Some(d)
  {
    var tail := Segment(d.minutes, "m ") + Segment(d.seconds, "s");
    var h := NatToString(d.hours);
    assert t[0..] == h + ("h " + tail);
    ReadSegmentMatch(t, 0, d.hours, "h ", tail);
    SkipFront(t, 0, h + "h ", tail);
    ReadMinutesSecondsOf(t, |h| + 2, d);
  }

  /** Without an hours segment the text reads back with 0 hours. */
  lemma ReadWithoutHours(d: Duration, t: string)
    requires d.hours == 0
    requires t == Segment(d.minutes, "m ") + Segment(d.seconds, "s")
    ensures ReadDisplay(t) == Some(d)
  {
    var m := NatToString(d.minutes);
    assert t[0..] == m + ("m " + Segment(d.seconds, "s"));
    ReadSegmentMismatch(t, 0, d.minutes, "m ", Segment(d.seconds, "s"), "h ");
    ReadMinutesSecondsOf(t, 0, d);
  }

  /** Different durations are displayed differently. */
  lemma FormatDurationInjective(a: Duration, b: Duration)
    ensures FormatDuration(a) == FormatDuration(b) ==> a == b
  {
  }
}
