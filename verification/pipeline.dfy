/** `fetchPlaylistData` and `combinePlaylistAndVideoData`: the two fetches,
    the projection of video ids, the positional join and the total. The
    network is a parameter: each fetch is a function from its request to the
    parsed body, None when the code would throw before the rows are built (a
    non-ok response, a transport failure, a body that is not JSON, or one
    without the `items` the code reads). */
module Pipeline {
  import opened Wrappers
  import opened Durations
  import opened IsoDuration
  import opened PlaylistIds

  /** One entry of the playlist call: `contentDetails.videoId`,
      `snippet.title` and `snippet.thumbnails.medium.url`. */
  datatype PlaylistItem = PlaylistItem(videoId: string, title: string, thumbnailUrl: string)

  /** One entry of the video-details call: `contentDetails.duration`. */
  datatype VideoDetail = VideoDetail(duration: string)

  /** One row of the table. */
  datatype VideoRecord = VideoRecord(thumbnail: string, title: string, duration: Duration, url: string)

  const WatchUrlPrefix := "https://www.youtube.com/watch?v="

  /** The link of a row: the watch page prefix, then the id, which can be
      read back from what follows the prefix. */
  function WatchUrl(videoId: string): (url: string)
    ensures |url| == |WatchUrlPrefix| + |videoId|
    ensures url[..|WatchUrlPrefix|] == WatchUrlPrefix
    ensures url[|WatchUrlPrefix|..] == videoId
  {
    WatchUrlPrefix + videoId
  }

  /** The ids sent to the video-details call, in playlist order. */
  function VideoIds(items: seq<PlaylistItem>): (ids: seq<string>)
    ensures |ids| == |items|
    ensures forall i :: 0 <= i < |items| ==> ids[i] == items[i].videoId
  {
    if |items| == 0 then [] else [items[0].videoId] + VideoIds(items[1..])
  }

  /** The playlist item a row shows: its title, its thumbnail and the id
      after the watch page prefix of its link. */
  function ItemOf(v: VideoRecord): PlaylistItem
    requires |WatchUrlPrefix| <= |v.url|
  {
    PlaylistItem(v.url[|WatchUrlPrefix|..], v.title, v.thumbnail)
  }

  /** The row built for one item and the duration parsed at its index. It
      keeps all of the item: the item and the duration can be read back. */
  function Record(item: PlaylistItem, duration: Duration): (r: VideoRecord)
    ensures r.url == WatchUrl(item.videoId)
    ensures |WatchUrlPrefix| <= |r.url| && ItemOf(r) == item
    ensures r.duration == duration
  {
    VideoRecord(item.thumbnailUrl, item.title, duration, WatchUrl(item.videoId))
  }

  /** Every item has a detail at its index, and that detail's duration
      holds a `PT`: the join goes through without a TypeError. */
  predicate Joinable(items: seq<PlaylistItem>, details: seq<VideoDetail>) {
    && |items| <= |details|
    && forall i :: 0 <= i < |items| ==> ParseDuration(details[i].duration).Some?
  }

  /** `videos` is the positional join of `items` with `details`: one record
      per item, in order, with the duration parsed at the same index. */
  predicate JoinedFrom(videos: seq<VideoRecord>, items: seq<PlaylistItem>, details: seq<VideoDetail>) {
    && |videos| == |items| <= |details|
    && forall i :: 0 <= i < |items| ==>
         && ParseDuration(details[i].duration).Some?
         && videos[i] == Record(items[i], ParseDuration(details[i].duration).value)
  }

  /** `combinePlaylistAndVideoData`: item `i` is joined with detail `i`.
      None stands for the TypeError thrown when a detail is missing
      (`videoDetails.items[index]` is undefined) or its duration holds no
      `PT`; extra details are ignored. */
  function Combine(items: seq<PlaylistItem>, details: seq<VideoDetail>): (r: Option<seq<VideoRecord>>)
    ensures r.Some? <==> Joinable(items, details)
    ensures r.Some? ==> JoinedFrom(r.value, items, details)
  {
    if |items| == 0 then
      Some([])
    else if |details| == 0 then
      None
    else
      match ParseDuration(details[0].duration)
      case None => None
      case Some(d) =>
        match Combine(items[1..], details[1..])
        case None => None
        case Some(rest) => Some([Record(items[0], d)] + rest)
  }

  /** The durations column of the table, the input of `calculateTotalDuration`. */
  function DurationsOf(videos: seq<VideoRecord>): (ds: seq<Duration>)
    ensures |ds| == |videos|
    ensures forall i :: 0 <= i < |videos| ==> ds[i] == videos[i].duration
  {
    if |videos| == 0 then [] else [videos[0].duration] + DurationsOf(videos[1..])
  }

  const InvalidUrlMessage := "Invalid YouTube Playlist URL"
  const FetchFailedMessage := "An error occurred while fetching the playlist data"

  /** What one click shows: an error message, or the total (as summed, before
      the display normalizes it) and the table rows. */
  datatype Outcome = ShowError(message: string) | ShowResults(total: Duration, videos: seq<VideoRecord>)

  /** `fetchPlaylistData`. The only caller-visible results are the two
      messages and the joined rows with their total. */
  function FetchPlaylistData(
    input: string,
    fetchItems: string -> Option<seq<PlaylistItem>>,
    fetchDetails: seq<string> -> Option<seq<VideoDetail>>
  ): (r: Outcome)
    ensures r.ShowError? ==> r.message == InvalidUrlMessage || r.message == FetchFailedMessage
    ensures r == ShowError(InvalidUrlMessage) <==> GetPlaylistId(input).None?
    ensures r.ShowResults? <==> (GetPlaylistId(input).Some?
      && fetchItems(GetPlaylistId(input).value).Some?
      && fetchDetails(VideoIds(fetchItems(GetPlaylistId(input).value).value)).Some?
      && Joinable(fetchItems(GetPlaylistId(input).value).value,
           fetchDetails(VideoIds(fetchItems(GetPlaylistId(input).value).value)).value))
    ensures r.ShowResults? ==>
      var items := fetchItems(GetPlaylistId(input).value).value;
      JoinedFrom(r.videos, items, fetchDetails(VideoIds(items)).value)
    ensures r.ShowResults? ==> TotalSeconds(r.total) == FieldTotal(DurationsOf(r.videos), TotalSeconds)
    ensures r.ShowResults? ==> r.total.hours == FieldTotal(DurationsOf(r.videos), Hours)
    ensures r.ShowResults? ==> r.total.minutes == FieldTotal(DurationsOf(r.videos), Minutes)
    ensures r.ShowResults? ==> r.total.seconds == FieldTotal(DurationsOf(r.videos), Seconds)
  {
    match GetPlaylistId(input)
    case None => ShowError(InvalidUrlMessage)
    case Some(id) =>
      match fetchItems(id)
      case None => ShowError(FetchFailedMessage)
      case Some(items) =>
        match fetchDetails(VideoIds(items))
        case None => ShowError(FetchFailedMessage)
        case Some(details) =>
          match Combine(items, details)
          case None => ShowError(FetchFailedMessage)
          case Some(videos) => ShowResults(Sum(DurationsOf(videos)), videos)
  }

  /** Record `i` is the video whose id was sent at position `i` of the
      details request. */
  lemma RecordsFollowRequestedIds(items: seq<PlaylistItem>, details: seq<VideoDetail>)
    requires Combine(items, details).Some?
    ensures forall i :: 0 <= i < |items| ==>
      Combine(items, details).value[i].url == WatchUrl(VideoIds(items)[i])
  {
  }

  /** When the details call answers in request order (detail `i` is the one
      for id `i`), the positional join gives every video its own duration. */
  lemma PositionalJoinMatchesById(items: seq<PlaylistItem>, lookup: string -> VideoDetail)
    requires forall i :: 0 <= i < |items| ==> ParseDuration(lookup(items[i].videoId).duration).Some?
    ensures var ids := VideoIds(items);
      var details := seq(|ids|, i requires 0 <= i < |ids| => lookup(ids[i]));
      var r := Combine(items, details);
      && r.Some?
      && forall i :: 0 <= i < |items| ==>
           r.value[i].duration == ParseDuration(lookup(items[i].videoId).duration).value
  {
  }
}
