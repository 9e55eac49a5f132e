/** The page of a generated site: a fixed record, the counter from that record's date to the
    current instant (the same calculator and refresh lifecycle as the preview), and the same
    video-id extractor. The route parameter naming the site is read but never used. */
module GeneratedSite {
  import opened JsString
  import opened SiteGenerator
  import opened VideoId
  import opened Counter
  import LoveCounterPreview

  const SiteMessage: string :=
    "a muito tempo eu te amei, mas de forma platonica todo o amor foi criado mentalmente e nao de verdade para ambas as partes"

  /** The record the page shows, fixed in the page itself. */
  const Record: SiteData :=
    SiteData("Nosso Amor", "Guilherme", "Isabela", "1998-10-08", SiteMessage, "#f06292", [], "")

  /** `new Date('1998-10-08').getTime()`: a date-only ISO text is read as UTC midnight. */
  const AnchorMs: int := 907804800000

  /** `siteData.youtubeUrl ? extractYouTubeVideoId(siteData.youtubeUrl) : ''`. */
  function SiteVideoId(): (id: string)
    ensures id == [] || IsVideoId(id)
  {
    if Record.youtubeUrl == [] then [] else ExtractYouTubeVideoId(Record.youtubeUrl)
  }

  datatype SiteView = SiteView(
    heading: string,
    accent: string,
    subtitle: string,
    photos: seq<string>,
    cells: Reading,
    message: string,
    player: Option<string>,
    footer: string)

  /** The visible page for the counter state `counter`.  The fixed record has no video link
      and no photos, so the page never shows a player or a photo. */
  function RenderSite(counter: Reading): (v: SiteView)
    ensures v.player.None? && v.photos == []
  {
    var id := SiteVideoId();
    SiteView(
      heading := Record.title,
      accent := Record.primaryColor,
      subtitle := Record.partnerName1 + " " + Heart + " " + Record.partnerName2,
      photos := Record.photos,
      cells := counter,
      message := Record.message,
      player := if id != [] then Some(EmbedSrc(id)) else None,
      footer := Record.title)
  }

  /** The page has no fallbacks, but its record fills in every text the preview would replace,
      so it shows what the preview of the same record shows. */
  lemma SiteMatchesPreview(counter: Reading, random: string)
    ensures var v := RenderSite(counter);
      var p := LoveCounterPreview.RenderPreview(Record, counter, random);
      && v.heading == p.heading && v.footer == p.footer && v.accent == p.accent
      && v.subtitle == p.subtitle && v.message == p.message && v.cells == p.cells
      && v.player == p.player && p.carousel.None?
  {
  }

  /** Mounting the page: the counter shows the calculator applied to the fixed anchor and the
      current instant, published once right away, and one hourly interval is scheduled. */
  method MountSite(now: int) returns (e: CounterEffect)
    ensures fresh(e) && e.Valid() && e.timerActive && |e.live| == 1
    ensures e.anchor == Some(AnchorMs) && e.date == Record.relationshipDate
    ensures e.published == [Counted(Elapsed(now - AnchorMs))]
    ensures e.counter == Counted(Elapsed(now - AnchorMs))
  {
    e := new CounterEffect.Mount(Record.relationshipDate, Some(AnchorMs), now);
  }

  /** A visit: mount at `t0`, one hourly tick at `t1`, leave the page, and a tick still pending
      at `t2`.  What the page last showed is the reading at `t1`; nothing is published after
      the page is left. */
  method Visit(t0: int, t1: int, t2: int) returns (shown: Reading)
    ensures shown == Counted(Elapsed(t1 - AnchorMs))
  {
    var e := MountSite(t0);
    var h := e.handle;
    e.Tick(h, t1);
    e.Unmount();
    e.Tick(h, t2);
    assert e.published == [Counted(Elapsed(t0 - AnchorMs)), Counted(Elapsed(t1 - AnchorMs))];
    shown := e.counter;
  }

  /** A visit exactly at the anchor shows four zeros. */
  method VisitAtAnchor() returns (shown: Reading)
    ensures shown == Counted(TimeSpan(0, 0, 0, 0))
  {
    var e := MountSite(AnchorMs);
    ZeroAtAnchor();
    shown := e.counter;
  }
}
