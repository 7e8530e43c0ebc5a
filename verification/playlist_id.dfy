/** `getPlaylistId`: an unanchored search for `/[&?]list=([a-zA-Z0-9_-]{18,34})/`
    returning the capture of the first match, or null. */
module PlaylistIds {
  import opened Wrappers
  import opened Text

  const MinIdLength: nat := 18
  const MaxIdLength: nat := 34

  /** `[&?]list=` occurs at position `p`; the value starts at `p + 6`. */
  predicate KeyAt(s: string, p: nat) {
    p + 6 <= |s| && (s[p] == '&' || s[p] == '?') && s[p + 1..p + 6] == "list="
  }

  /** The regular expression can match at `p` with a capture of `k` characters. */
  predicate CaptureAt(s: string, p: nat, k: nat) {
    && KeyAt(s, p)
    && MinIdLength <= k <= MaxIdLength
    && p + 6 + k <= |s|
    && forall j :: p + 6 <= j < p + 6 + k ==> IsIdChar(s[j])
  }

  /** The match a backtracking engine reports when it starts scanning at
      `from`: the leftmost start at or after `from`, and there the longest
      capture (the quantifier is greedy). */
  ghost predicate LeftmostGreedyFrom(s: string, from: nat, p: nat, k: nat) {
    && from <= p
    && CaptureAt(s, p, k)
    && (forall q: nat, j: nat :: from <= q < p ==> !CaptureAt(s, q, j))
    && (forall j: nat :: k < j ==> !CaptureAt(s, p, j))
  }

  /** The captures at a key position are exactly the lengths 18..34 that the
      run of identifier characters after it covers. */
  lemma CaptureAtIff(s: string, p: nat, k: nat)
    ensures CaptureAt(s, p, k) <==>
      KeyAt(s, p) && MinIdLength <= k <= MaxIdLength && k <= Span(s, p + 6, IsIdChar)
  {
    if KeyAt(s, p) && MinIdLength <= k <= MaxIdLength {
      var run := Span(s, p + 6, IsIdChar);
      if CaptureAt(s, p, k) {
        assert run >= k;
      }
    }
  }

  /** The scan of the regular-expression engine from `from` on: the start
      and capture length of the match it reports, or None. */
  function FirstMatch(s: string, from: nat): (r: Option<(nat, nat)>)
    ensures r.None? <==> forall q: nat, k: nat :: from <= q ==> !CaptureAt(s, q, k)
    ensures r.Some? ==> LeftmostGreedyFrom(s, from, r.value.0, r.value.1)
    decreases |s| - from
  {
    if from + 6 > |s| then
      None
    else
      var run := Span(s, from + 6, IsIdChar);
      if KeyAt(s, from) && run >= MinIdLength then
        var k := if run < MaxIdLength then run else MaxIdLength;
        assert LeftmostGreedyFrom(s, from, from, k) by {
          CaptureAtIff(s, from, k);
          forall j: nat | k < j
            ensures !CaptureAt(s, from, j)
          {
            CaptureAtIff(s, from, j);
          }
        }
        Some((from, k))
      else
        assert forall k: nat :: !CaptureAt(s, from, k) by {
          forall k: nat
            ensures !CaptureAt(s, from, k)
          {
            CaptureAtIff(s, from, k);
          }
        }
        FirstMatch(s, from + 1)
  }

  /** The value of `getPlaylistId(url)`: the capture of the leftmost, longest
      match, or None for JavaScript's null. */
  function GetPlaylistId(url: string): (r: Option<string>)
    ensures r.None? <==> forall p: nat, k: nat :: !CaptureAt(url, p, k)
    ensures r.Some? ==> exists p: nat, k: nat ::
      LeftmostGreedyFrom(url, 0, p, k) && r.value == url[p + 6..p + 6 + k]
  {
    match FirstMatch(url, 0)
    case None => None
    case Some((p, k)) => Some(url[p + 6..p + 6 + k])
  }

  /** A returned id is 18 to 34 identifier characters that stand in the
      input right after `&list=` or `?list=`. */
  lemma PlaylistIdShape(url: string)
    requires GetPlaylistId(url).Some?
    ensures var id := GetPlaylistId(url).value;
      && MinIdLength <= |id| <= MaxIdLength
      && (forall i :: 0 <= i < |id| ==> IsIdChar(id[i]))
      && exists p: nat :: KeyAt(url, p) && p + 6 + |id| <= |url| && url[p + 6..p + 6 + |id|] == id
  {
    var id := GetPlaylistId(url).value;
    var p, k := FirstMatch(url, 0).value.0, FirstMatch(url, 0).value.1;
    assert CaptureAt(url, p, k);
    forall i | 0 <= i < |id|
      ensures IsIdChar(id[i])
    {
      assert id[i] == url[p + 6 + i];
    }
  }

  /** At most one match is the leftmost, longest one. */
  lemma LeftmostGreedyUnique(s: string, p1: nat, k1: nat, p2: nat, k2: nat)
    requires LeftmostGreedyFrom(s, 0, p1, k1) && LeftmostGreedyFrom(s, 0, p2, k2)
    ensures p1 == p2 && k1 == k2
  {
  }

  /** A run of identifier characters longer than 34 after the first key is
      cut to its first 34 characters rather than rejected. */
  lemma LongRunIsTruncated(s: string, p: nat)
    requires KeyAt(s, p)
    requires forall q: nat, j: nat :: q < p ==> !CaptureAt(s, q, j)
    requires Span(s, p + 6, IsIdChar) >= MaxIdLength
    ensures GetPlaylistId(s) == Some(s[p + 6..p + 6 + MaxIdLength])
  {
    CaptureAtIff(s, p, MaxIdLength);
    forall j: nat | MaxIdLength < j
      ensures !CaptureAt(s, p, j)
    {
    }
    assert LeftmostGreedyFrom(s, 0, p, MaxIdLength);
    var m := FirstMatch(s, 0);
    LeftmostGreedyUnique(s, p, MaxIdLength, m.value.0, m.value.1);
  }

  /** A key followed by fewer than 18 identifier characters never matches, so
      the search moves on past it. */
  lemma ShortRunIsSkipped(s: string, p: nat)
    requires KeyAt(s, p)
    requires Span(s, p + 6, IsIdChar) < MinIdLength
    ensures forall k: nat :: !CaptureAt(s, p, k)
  {
    forall k: nat
      ensures !CaptureAt(s, p, k)
    {
      CaptureAtIff(s, p, k);
    }
  }
}
