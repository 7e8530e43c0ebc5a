/** `parseDuration`: the time part of an ISO 8601 duration in the designator
    format (section 4.4.3.2 of ISO 8601:2004), read with the unanchored
    expression `/PT(\d+H)?(\d+M)?(\d+S)?/`. Days, years, months and decimal
    fractions are not recognised. */
module IsoDuration {
  import opened Wrappers
  import opened Text
  import opened Durations

  /** The two characters `PT` start at `i`. */
  predicate DesignatorAt(s: string, i: nat) {
    i + 2 <= |s| && s[i] == 'P' && s[i + 1] == 'T'
  }

  /** Position of the first `PT` at or after `from`: where the unanchored
      search starts its match. */
  function FindDesignator(s: string, from: nat): (r: Option<nat>)
    ensures r.None? <==> forall i: nat :: from <= i ==> !DesignatorAt(s, i)
    ensures r.Some? ==> from <= r.value && DesignatorAt(s, r.value)
    ensures r.Some? ==> forall i: nat :: from <= i < r.value ==> !DesignatorAt(s, i)
    decreases |s| - from
  {
    if from + 2 > |s| then None
    else if DesignatorAt(s, from) then Some(from)
    else FindDesignator(s, from + 1)
  }

  /** `\d+X` can match from `i`, with its digits ending at `j`. */
  predicate GroupAt(s: string, i: nat, j: nat, designator: char) {
    && i < j < |s|
    && (forall k :: i <= k < j ==> IsDigit(s[k]))
    && s[j] == designator
  }

  /** The optional group `(\d+X)?` at position `i`, for designator `X`: the
      number `parseInt(...) || 0` gives and the position after the group.
      Greedy digits followed by anything but `X` leave the group empty. */
  function Component(s: string, i: nat, designator: char): (r: (nat, nat))
    requires i <= |s|
    ensures i <= r.1 <= |s|
    ensures r.1 == i ==> r.0 == 0
  {
    match ReadNat(s, i)
    case Some((n, j)) =>
      if j < |s| && s[j] == designator then (n, j + 1) else (0, i)
    case None => (0, i)
  }

  /** The group is empty exactly when `\d+X` cannot match at `i`; otherwise
      it spans the digits and the designator, and its value is that of the
      digits. */
  lemma ComponentMatchesGroup(s: string, i: nat, designator: char)
    requires i <= |s|
    requires !IsDigit(designator)
    ensures var r := Component(s, i, designator);
      && (r.1 == i <==> forall j :: !GroupAt(s, i, j, designator))
      && (r.1 == i ==> r.0 == 0)
      && (r.1 > i ==> GroupAt(s, i, r.1 - 1, designator) && r.0 == DigitsValue(s[i..r.1 - 1]))
  {
    match ReadNat(s, i)
    case Some((n, j)) =>
      if j < |s| && s[j] == designator {
        assert GroupAt(s, i, j, designator);
      } else {
        forall j' | GroupAt(s, i, j', designator)
          ensures false
        {
        }
      }
    case None =>
  }

  /** `parseDuration(text)`. None stands for the TypeError thrown when the
      text holds no `PT`: `match` returns null and `matches[1]` fails. */
  function ParseDuration(text: string): (r: Option<Duration>)
    ensures r.None? <==> forall i: nat :: !DesignatorAt(text, i)
  {
    match FindDesignator(text, 0)
    case None => None
    case Some(start) => Some(GroupsAfter(text, start))
  }

  /** The three optional groups read in turn after the `PT` at `start`. */
  function GroupsAfter(text: string, start: nat): Duration
    requires start + 2 <= |text|
  {
    var hours := Component(text, start + 2, 'H');
    var minutes := Component(text, hours.1, 'M');
    var seconds := Component(text, minutes.1, 'S');
    Duration(hours.0, minutes.0, seconds.0)
  }

  /** `<n><designator>` when the component is written, nothing otherwise. */
  function Part(n: nat, written: bool, designator: char): string {
    if written then NatToString(n) + [designator] else ""
  }

  /** A duration written in the designator format, each component present
      or left out. */
  function IsoText(d: Duration, withHours: bool, withMinutes: bool, withSeconds: bool): string {
    "PT" + (Part(d.hours, withHours, 'H') + (Part(d.minutes, withMinutes, 'M')
      + Part(d.seconds, withSeconds, 'S')))
  }

  /** A written component `<n><c>` at `i` is read as `n` by the group for
      designator `c`, and leaves the group for any other designator empty. */
  lemma ComponentOnPart(s: string, i: nat, n: nat, c: char, rest: string, designator: char)
    requires !IsDigit(c)
    requires i <= |s| && s[i..] == NatToString(n) + [c] + rest
    ensures Component(s, i, designator)
      == if c == designator then (n, i + |NatToString(n)| + 1) else (0, i)
  {
    var t := NatToString(n);
    assert s[i..i + |t|] == t by {
      assert s[i..i + |t|] == s[i..][..|t|];
    }
    assert s[i + |t|] == c by {
      assert s[i + |t|] == s[i..][|t|];
    }
    ReadNatOfNatToString(s, i, n);
  }

  /** After a text with no `PT`, the first `PT` is the one that follows it. */
  lemma FirstDesignatorAfter(prefix: string, rest: string)
    requires forall i: nat :: !DesignatorAt(prefix, i)
    requires DesignatorAt(rest, 0)
    ensures FindDesignator(prefix + rest, 0) == Some(|prefix|)
  {
    var s := prefix + rest;
    assert DesignatorAt(s, |prefix|);
    forall i: nat | i < |prefix|
      ensures !DesignatorAt(s, i)
    {
      if i + 1 < |prefix| {
        assert !DesignatorAt(prefix, i);
      }
    }
  }

  /** Parsing a duration written in the designator format, after any text
      that holds no `PT`, gives back the duration: absent components read as 0. */
  lemma ParseIsoText(prefix: string, d: Duration, withHours: bool, withMinutes: bool, withSeconds: bool)
    requires forall i: nat :: !DesignatorAt(prefix, i)
    requires withHours || d.hours == 0
    requires withMinutes || d.minutes == 0
    requires withSeconds || d.seconds == 0
    ensures ParseDuration(prefix + IsoText(d, withHours, withMinutes, withSeconds)) == Some(d)
  {
    var rest := Part(d.hours, withHours, 'H') + (Part(d.minutes, withMinutes, 'M') + Part(d.seconds, withSeconds, 'S'));
    var s := prefix + ("PT" + rest);
    assert FindDesignator(s, 0) == Some(|prefix|) by {
      FirstDesignatorAfter(prefix, "PT" + rest);
    }
    assert s[|prefix| + 2..] == rest by {
      SkipFront(s, 0, prefix, "PT" + rest);
      SkipFront(s, |prefix|, "PT", rest);
    }
    ParseAfterDesignator(s, |prefix|, d, withHours, withMinutes, withSeconds);
  }

  lemma ParseAfterDesignator(s: string, start: nat, d: Duration, withHours: bool, withMinutes: bool, withSeconds: bool)
    requires FindDesignator(s, 0) == Some(start)
    requires withHours || d.hours == 0
    requires withMinutes || d.minutes == 0
    requires withSeconds || d.seconds == 0
    requires start + 2 <= |s|
    requires s[start + 2..] == Part(d.hours, withHours, 'H') + (Part(d.minutes, withMinutes, 'M') + Part(d.seconds, withSeconds, 'S'))
    ensures ParseDuration(s) == Some(d)
  {
    ReadParts(s, start, d, withHours, withMinutes, withSeconds);
  }

  /** The three groups read the three written-or-absent components in turn. */
  lemma ReadParts(s: string, start: nat, d: Duration, withHours: bool, withMinutes: bool, withSeconds: bool)
    requires withHours || d.hours == 0
    requires withMinutes || d.minutes == 0
    requires withSeconds || d.seconds == 0
    requires start + 2 <= |s|
    requires s[start + 2..] == Part(d.hours, withHours, 'H') + (Part(d.minutes, withMinutes, 'M') + Part(d.seconds, withSeconds, 'S'))
    ensures GroupsAfter(s, start) == d
  {
    var i := start + 2;
    var ph, pm, ps := Part(d.hours, withHours, 'H'), Part(d.minutes, withMinutes, 'M'), Part(d.seconds, withSeconds, 'S');
    ReadOnePart(s, i, d.hours, withHours, 'H', d.minutes, withMinutes, 'M', d.seconds, withSeconds, 'S');
    var j := Component(s, i, 'H').1;
    assert j == i + |ph|;
    SkipFront(s, i, ph, pm + ps);
    ReadLastTwo(s, j, d, withMinutes, withSeconds);
  }

  /** The minutes and seconds groups, after the hours group. */
  lemma ReadLastTwo(s: string, i: nat, d: Duration, withMinutes: bool, withSeconds: bool)
    requires withMinutes || d.minutes == 0
    requires withSeconds || d.seconds == 0
    requires i <= |s|
    requires s[i..] == Part(d.minutes, withMinutes, 'M') + Part(d.seconds, withSeconds, 'S')
    ensures Component(s, i, 'M').0 == d.minutes
    ensures Component(s, Component(s, i, 'M').1, 'S').0 == d.seconds
  {
    var pm, ps, none := Part(d.minutes, withMinutes, 'M'), Part(d.seconds, withSeconds, 'S'), Part(0, false, 'H');
    assert ps + none == ps;
    ReadOnePart(s, i, d.minutes, withMinutes, 'M', d.seconds, withSeconds, 'S', 0, false, 'H');
    var j := Component(s, i, 'M').1;
    assert j == i + |pm|;
    SkipFront(s, i, pm, ps);
    assert none + none == none;
    ReadOnePart(s, j, d.seconds, withSeconds, 'S', 0, false, 'H', 0, false, 'H');
  }

  /** Reading one written-or-absent component, when it is followed by two
      written-or-absent components of other designators. */
  lemma ReadOnePart(s: string, i: nat, n: nat, written: bool, designator: char,
                    n2: nat, written2: bool, c2: char, n3: nat, written3: bool, c3: char)
    requires i <= |s|
    requires s[i..] == Part(n, written, designator) + (Part(n2, written2, c2) + Part(n3, written3, c3))
    requires written || n == 0
    requires !IsDigit(designator) && !IsDigit(c2) && !IsDigit(c3)
    requires c2 != designator && (written3 ==> c3 != designator)
    ensures Component(s, i, designator) == (n, i + |Part(n, written, designator)|)
  {
    var p2, p3 := Part(n2, written2, c2), Part(n3, written3, c3);
    if written {
      ComponentOnPart(s, i, n, designator, p2 + p3, designator);
    } else if written2 {
      assert s[i..] == NatToString(n2) + [c2] + p3;
      ComponentOnPart(s, i, n2, c2, p3, designator);
    } else if written3 {
      assert s[i..] == NatToString(n3) + [c3];
      ComponentOnPart(s, i, n3, c3, "", designator);
    } else {
      assert |s[i..]| == 0;
    }
  }
}
