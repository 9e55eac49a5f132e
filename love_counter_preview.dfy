/** What the live preview of the wizard shows for a record: the `||` fallbacks of its texts,
    the photo carousel, the four counter cells, the embedded player and the mock address bar.
    The counter state behind the cells and its hourly refresh are `Counter.CounterEffect`. */
module LoveCounterPreview {
  import opened JsString
  import opened SiteGenerator
  import opened VideoId
  import Counter

  const DefaultTitle: string := "Love Counter"
  const DefaultMessage: string := "Sua mensagem especial aparecerá aqui..."
  const PreviewHostPrefix: string := "love-counter-"
  const PreviewHostSuffix: string := ".lovecounter.app"

  /** `data.youtubeUrl ? extractYouTubeVideoId(data.youtubeUrl) : ''`. */
  function YoutubeVideoId(d: SiteData): (id: string)
    ensures id == [] || IsVideoId(id)
    ensures d.youtubeUrl == [] ==> id == []
  {
    if d.youtubeUrl == [] then [] else ExtractYouTubeVideoId(d.youtubeUrl)
  }

  /** The visible content of the preview. */
  datatype PreviewView = PreviewView(
    address: string,
    heading: string,
    accent: string,
    subtitle: string,
    carousel: Option<seq<string>>,
    cells: Counter.Reading,
    message: string,
    player: Option<string>,
    footer: string)

  /** The preview for record `d`, counter state `counter`, and the random number text behind
      the mock address (`Math.random().toString(36)`, passed in). */
  function RenderPreview(d: SiteData, counter: Counter.Reading, random: string): (v: PreviewView)
    ensures v.heading == Or(d.title, DefaultTitle) && v.footer == v.heading && v.heading != []
    ensures v.subtitle == Subtitle(d.(partnerName1 := Or(d.partnerName1, "Partner 1"),
                                      partnerName2 := Or(d.partnerName2, "Partner 2")))
    ensures v.message == Or(d.message, DefaultMessage) && v.message != []
    ensures v.accent == d.primaryColor && v.cells == counter
    ensures v.carousel.Some? <==> |d.photos| > 0
    ensures v.carousel.Some? ==> v.carousel.value == d.photos
    ensures v.player.Some? <==> d.youtubeUrl != [] && ExtractYouTubeVideoId(d.youtubeUrl) != []
    ensures v.player.Some? ==> ExtractYouTubeVideoId(v.player.value) == YoutubeVideoId(d)
  {
    var id := YoutubeVideoId(d);
    PlayerRoundTrip(id);
    PreviewView(
      address := PreviewHostPrefix + Substring(random, 2, 8) + PreviewHostSuffix,
      heading := Or(d.title, DefaultTitle),
      accent := d.primaryColor,
      subtitle := Or(d.partnerName1, "Partner 1") + " " + Heart + " " + Or(d.partnerName2, "Partner 2"),
      carousel := if |d.photos| > 0 then Some(d.photos) else None,
      cells := counter,
      message := Or(d.message, DefaultMessage),
      player := if id != [] then Some(EmbedSrc(id)) else None,
      footer := Or(d.title, DefaultTitle))
  }

  lemma PlayerRoundTrip(id: string)
    requires id == [] || IsVideoId(id)
    ensures id != [] ==> ExtractYouTubeVideoId(EmbedSrc(id)) == id
  {
    if id != [] { EmbedSrcRoundTrip(id); }
  }

  /** The player is the embed address of the extracted id. */
  lemma PlayerSource(d: SiteData, counter: Counter.Reading, random: string)
    requires YoutubeVideoId(d) != []
    ensures RenderPreview(d, counter, random).player ==
      Some("https://www.youtube.com/embed/" + YoutubeVideoId(d) + "?controls=1&autoplay=0")
  {
  }

  /** The mock address shows at most six characters of the random text. */
  lemma AddressShape(d: SiteData, counter: Counter.Reading, random: string)
    ensures var a := RenderPreview(d, counter, random).address;
      exists id :: |id| <= 6 && a == PreviewHostPrefix + id + PreviewHostSuffix
  {
    var id := Substring(random, 2, 8);
    assert RenderPreview(d, counter, random).address == PreviewHostPrefix + id + PreviewHostSuffix;
  }

  /** With every text filled in, the preview shows the texts the generated page shows: its
      heading, subtitle and message all appear in the generated HTML. */
  lemma PreviewAgreesWithPage(d: SiteData, counter: Counter.Reading, random: string)
    requires d.title != [] && d.partnerName1 != [] && d.partnerName2 != [] && d.message != []
    ensures var v := RenderPreview(d, counter, random);
      && Contains(GenerateHtml(d), v.heading)
      && Contains(GenerateHtml(d), v.subtitle)
      && Contains(GenerateHtml(d), v.message)
  {
    PageShowsTexts(d);
  }

  lemma PageShowsTexts(d: SiteData)
    ensures Contains(GenerateHtml(d), d.title)
    ensures Contains(GenerateHtml(d), Subtitle(d))
    ensures Contains(GenerateHtml(d), d.message)
  {
    HtmlShowsFields(d);
    FieldsInside(GenerateHtml(d), d);
  }

  lemma FieldsInside(html: string, d: SiteData)
    requires Contains(html, HeadingOpen + d.title + HeadingClose)
    requires Contains(html, SubtitleOpen + d.partnerName1 + " " + Heart + " " + d.partnerName2 + ParagraphClose)
    requires Contains(html, MessageOpen + d.message + ParagraphClose)
    ensures Contains(html, d.title) && Contains(html, Subtitle(d)) && Contains(html, d.message)
  {
    Inside(html, HeadingOpen, d.title, HeadingClose);
    assert SubtitleOpen + d.partnerName1 + " " + Heart + " " + d.partnerName2 + ParagraphClose
        == SubtitleOpen + Subtitle(d) + ParagraphClose;
    Inside(html, SubtitleOpen, Subtitle(d), ParagraphClose);
    Inside(html, MessageOpen, d.message, ParagraphClose);
  }

  /** Text found inside a found text is found. */
  lemma Inside(s: string, open: string, t: string, close: string)
    requires Contains(s, open + t + close)
    ensures Contains(s, t)
  {
    assert OccursAt(t, open + t + close, |open|) by {
      assert (open + t + close)[|open|..|open| + |t|] == t;
    }
    ContainsTransitive(s, open + t + close, t);
  }

  /** A preview of an empty record still shows a heading, both partners and a message, and
      neither photos nor a player. */
  lemma EmptyRecordPreview(counter: Counter.Reading, random: string)
    ensures var v := RenderPreview(SiteData("", "", "", "", "", "", [], ""), counter, random);
      && v.heading == DefaultTitle && v.message == DefaultMessage
      && v.subtitle == "Partner 1 " + Heart + " Partner 2"
      && v.carousel.None? && v.player.None?
  {
  }
}
