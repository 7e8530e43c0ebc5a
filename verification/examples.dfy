/** Concrete inputs and outputs. */
module Examples {
  import opened Wrappers
  import opened Text
  import opened Durations
  import opened IsoDuration
  import opened Display
  import opened PlaylistIds

  lemma ParseFullDuration()
    ensures ParseDuration("PT1H2M10S") == Some(Duration(1, 2, 10))
  {
    assert "PT1H2M10S" == "" + IsoText(Duration(1, 2, 10), true, true, true);
    ParseIsoText("", Duration(1, 2, 10), true, true, true);
  }

  lemma ParseSecondsOnly()
    ensures ParseDuration("PT45S") == Some(Duration(0, 0, 45))
  {
    assert "PT45S" == "" + IsoText(Duration(0, 0, 45), false, false, true);
    ParseIsoText("", Duration(0, 0, 45), false, false, true);
  }

  /** The groups only match in the order hours, minutes, seconds: the
      minutes written after the seconds are not read. */
  lemma ParseOutOfOrder()
    ensures ParseDuration("PT5S3M") == Some(Duration(0, 0, 5))
  {
    var s := "PT5S3M";
    assert FindDesignator(s, 0) == Some(0);
    assert s[2..] == NatToString(5) + ['S'] + "3M";
    ComponentOnPart(s, 2, 5, 'S', "3M", 'H');
    ComponentOnPart(s, 2, 5, 'S', "3M", 'M');
    ComponentOnPart(s, 2, 5, 'S', "3M", 'S');
    assert GroupsAfter(s, 0) == Duration(0, 0, 5);
  }

  lemma ParseEmpty()
    ensures ParseDuration("") == None
  {
  }

  lemma ParseWithoutDesignator()
    ensures ParseDuration("1:30") == None
  {
  }

  lemma NormalizeCarries()
    ensures Normalize(Duration(0, 75, 130)) == Duration(1, 17, 10)
    ensures Normalize(Duration(1, 75, 90)) == Duration(2, 16, 30)
    ensures Normalize(Duration(1, 59, 60)) == Duration(2, 0, 0)
  {
  }

  /** Over two videos the `reduce` is two steps of `Add` from zero. */
  lemma SumOfPair(a: Duration, b: Duration)
    ensures Sum([a, b]) == Add(Add(Zero, a), b)
  {
    var ds := [a, b];
    assert ds[..1] == [a];
    assert [a][..0] == [];
  }

  /** The duration is a parameter fixed by the requires, which keeps the
      verifier from evaluating the whole text literally. */
  lemma FormatMinutesSeconds(d: Duration)
    requires d == Duration(0, 5, 3)
    ensures FormatDuration(d) == "5m 3s"
  {
    assert Segment(5, "m ") == "5m ";
    assert Segment(3, "s") == "3s";
  }

  /** The duration is a parameter fixed by the requires, which keeps the
      verifier from evaluating the whole text literally. */
  lemma FormatWithHours(d: Duration)
    requires d == Duration(1, 2, 10)
    ensures FormatDuration(d) == "1h 2m 10s"
  {
    assert Segment(1, "h ") == "1h ";
    assert Segment(2, "m ") == "2m ";
    assert Segment(10, "s") == "10s";
    assert "1h " + ("2m " + "10s") == "1h 2m 10s";
  }

  /** The duration is a parameter fixed by the requires, which keeps the
      verifier from evaluating the whole text literally. */
  lemma FullFormatExample(d: Duration)
    requires d == Duration(1, 17, 10)
    ensures FullFormat(d) == "1h 17m 10s"
  {
    assert Segment(1, "h ") == "1h ";
    assert Segment(17, "m ") == "17m ";
    assert Segment(10, "s") == "10s";
    assert "1h " + ("17m " + "10s") == "1h 17m 10s";
  }

  /** 75m 130s is shown on the total line as 1h 17m 10s. As above, the
      duration is a parameter to keep the evaluation cheap. */
  lemma TotalLineExample(d: Duration)
    requires d == Duration(0, 75, 130)
    ensures TotalDurationText(d) == "Total Duration: " + "1h 17m 10s"
  {
    var n := Normalize(d);
    assert n == Duration(1, 17, 10);
    FullFormatExample(n);
    assert TotalDurationText(d) == "Total Duration: " + FullFormat(n);
  }

  lemma PlaylistIdFound()
    ensures GetPlaylistId("?list=PL0123456789abcdef") == Some("PL0123456789abcdef")
  {
    var id := "PL0123456789abcdef";
    var s := "?list=" + id;
    assert s == "?list=PL0123456789abcdef";
    assert s[1..6] == "list=" by {
      assert s[1..6] == [s[1], s[2], s[3], s[4], s[5]];
    }
    assert KeyAt(s, 0);
    assert forall k :: 6 <= k < 24 ==> IsIdChar(s[k]);
    SpanUnique(s, 6, IsIdChar, 18);
    assert FirstMatch(s, 0) == Some((0, 18));
    assert s[6..24] == id;
    assert GetPlaylistId(s) == Some(id);
  }

  lemma PlaylistIdMissing()
    ensures GetPlaylistId("https://example.com") == None
  {
  }

  /** A zero-padded number is not a printed numeral, so the reader rejects
      the text: the round trip of `FormatDuration` rules out `05m 3s`. */
  lemma PaddedTextNotRead(t: string)
    requires t == "05m 3s"
    ensures ReadDisplay(t) == None
  {
    SpanUnique(t, 0, IsDigit, 2);
    assert ReadNat(t, 0).value.1 == 2;
    assert t[0..2][0] == '0';
  }
}
