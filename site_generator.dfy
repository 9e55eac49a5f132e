/** The static page the generator produces: `generateHTML`, `generateCSS` and
    `generateSiteUrl`, each a single template over the page record, and the counter script
    the page embeds.

    The templates are reproduced character for character: the fixed text between the
    interpolated fields is held in the constants at the end of this module. */
module SiteGenerator {
  import opened JsString
  import Counter

  /** The page record.  The interface declares the first six fields; the persistence service
      and the other forms also read and write `photos` and `youtubeUrl`. */
  datatype SiteData = SiteData(
    title: string,
    partnerName1: string,
    partnerName2: string,
    relationshipDate: string,
    message: string,
    primaryColor: string,
    photos: seq<string>,
    youtubeUrl: string)

  /** The colour the form starts with, and the one a stored site is read back with. */
  const DefaultColor: string := "#e91e63"

  /** `t` stands in `s` starting at index `i`. */
  predicate OccursAt(t: string, s: string, i: int) {
    0 <= i && i + |t| <= |s| && s[i..i + |t|] == t
  }

  predicate Contains(s: string, t: string) {
    exists i :: 0 <= i <= |s| && OccursAt(t, s, i)
  }

  lemma ContainsExtended(s: string, t: string, p: string, q: string)
    requires Contains(s, t)
    ensures Contains(p + s + q, t)
  {
    var i :| 0 <= i <= |s| && OccursAt(t, s, i);
    assert OccursAt(t, p + s + q, |p| + i) by {
      assert (p + s + q)[|p| + i..|p| + i + |t|] == s[i..i + |t|];
    }
  }

  lemma ContainsTransitive(s: string, t: string, u: string)
    requires Contains(s, t) && Contains(t, u)
    ensures Contains(s, u)
  {
    var i :| 0 <= i <= |s| && OccursAt(t, s, i);
    var j :| 0 <= j <= |t| && OccursAt(u, t, j);
    assert OccursAt(u, s, i + j) by {
      forall k | 0 <= k < |u| ensures s[i + j + k] == u[k] {
        assert t[j + k] == u[k];
        assert s[i + (j + k)] == t[j + k];
      }
    }
  }

  /** A template as the sequence of its pieces, fixed text and fields alike. */
  function Concat(parts: seq<string>): string {
    if parts == [] then [] else parts[0] + Concat(parts[1..])
  }

  /** Every piece of a template stands in the text it produces. */
  lemma {:induction false} ContainsPart(parts: seq<string>, k: nat)
    requires k < |parts|
    ensures Contains(Concat(parts), parts[k])
  {
    var rest := Concat(parts[1..]);
    assert Concat(parts) == parts[0] + rest;
    if k == 0 {
      assert OccursAt(parts[0], parts[0] + rest, 0) by {
        assert (parts[0] + rest)[0..|parts[0]|] == parts[0];
      }
    } else {
      ContainsPart(parts[1..], k - 1);
      ContainsExtended(rest, parts[k], parts[0], []);
      assert parts[0] + rest + [] == parts[0] + rest;
    }
  }

  /** The heart that separates the two names and closes the footer: U+2764 U+FE0F. */
  const Heart: string := "\U{2764}\U{FE0F}"

  const TitleOpen: string := "<title>"
  const TitleClose: string := "</title>"
  const HeadingOpen: string := "<h1 class=\"title\">"
  const HeadingClose: string := "</h1>"
  const SubtitleOpen: string := "<p class=\"subtitle\">"
  const MessageOpen: string := "<p class=\"message\">"
  const ParagraphClose: string := "</p>"
  const FooterOpen: string := "<p>&copy; 2024 "
  const FooterClose: string := ". Feito com " + Heart + "</p>"
  /** The date string is pasted between quotes into the script's `new Date('...')`. */
  const DateOpen: string := "new Date('"
  const DateClose: string := "')"

  function Tagged(open: string, text: string, close: string): string {
    open + text + close
  }

  /** The subtitle text: both names around the heart, with one space on each side. */
  function Subtitle(d: SiteData): string {
    d.partnerName1 + " " + Heart + " " + d.partnerName2
  }

  /** A counter cell of the embedded page; the script overwrites the initial `0`. */
  function CounterSpan(id: string): string {
    "<span class=\"counter-number\" id=\"" + id + "\">0</span>"
  }

  const ItemOpen: string := "                <div class=\"counter-item\">\n                    "
  const ItemMiddle: string := "\n                    <span class=\"counter-label\">"
  const ItemClose: string := "</span>\n                </div>\n"

  function CounterItem(id: string, caption: string): string {
    ItemOpen + CounterSpan(id) + (ItemMiddle + caption + ItemClose)
  }

  const SubtitleToCounters: string :=
    "\n        </header>\n        \n        <main class=\"main\">\n            <div class=\"counter-section\">\n"

  /** The fixed text of the page between its interpolated fields. */
  datatype PageText = PageText(
    docHead: string, headToHeading: string, headingToSubtitle: string,
    countersToMessage: string, messageToFooter: string, footerToDate: string, scriptTail: string)

  const Page: PageText :=
    PageText(DocHead, HeadToHeading, HeadingToSubtitle, CountersToMessage, MessageToFooter,
             FooterToDate, ScriptTail)

  /** The document as the sequence of its pieces. */
  function HtmlParts(p: PageText, d: SiteData): seq<string> {
    [ p.docHead, Tagged(TitleOpen, d.title, TitleClose), p.headToHeading,
      Tagged(HeadingOpen, d.title, HeadingClose), p.headingToSubtitle,
      Tagged(SubtitleOpen, Subtitle(d), ParagraphClose), SubtitleToCounters,
      CounterItem("years", "Anos"), CounterItem("months", "Meses"),
      CounterItem("days", "Dias"), CounterItem("hours", "Horas"),
      p.countersToMessage, Tagged(MessageOpen, d.message, ParagraphClose),
      p.messageToFooter, Tagged(FooterOpen, d.title, FooterClose),
      p.footerToDate, Tagged(DateOpen, d.relationshipDate, DateClose), p.scriptTail ]
  }

  /** `generateHTML`. */
  function GenerateHtml(d: SiteData): string {
    Concat(HtmlParts(Page, d))
  }

  /** The title is inserted verbatim in the `<title>` element, in the page heading and in the
      footer; the subtitle is the two names around the heart; the message is inserted verbatim,
      without any escaping, as the text of the message paragraph. */
  lemma HtmlShowsFields(d: SiteData)
    ensures Contains(GenerateHtml(d), TitleOpen + d.title + TitleClose)
    ensures Contains(GenerateHtml(d), HeadingOpen + d.title + HeadingClose)
    ensures Contains(GenerateHtml(d), FooterOpen + d.title + FooterClose)
    ensures Contains(GenerateHtml(d),
      SubtitleOpen + d.partnerName1 + " " + Heart + " " + d.partnerName2 + ParagraphClose)
    ensures Contains(GenerateHtml(d), MessageOpen + d.message + ParagraphClose)
  {
    TemplateShowsTitle(Page, d);
    TemplateShowsHeading(Page, d);
    TemplateShowsFooter(Page, d);
    TemplateShowsSubtitle(Page, d);
    TemplateShowsMessage(Page, d);
  }

  lemma TemplateShowsTitle(p: PageText, d: SiteData)
    ensures Contains(Concat(HtmlParts(p, d)), TitleOpen + d.title + TitleClose)
  {
    PieceInTemplate(p, d, 1, TitleOpen + d.title + TitleClose);
  }

  lemma TemplateShowsHeading(p: PageText, d: SiteData)
    ensures Contains(Concat(HtmlParts(p, d)), HeadingOpen + d.title + HeadingClose)
  {
    PieceInTemplate(p, d, 3, HeadingOpen + d.title + HeadingClose);
  }

  lemma TemplateShowsFooter(p: PageText, d: SiteData)
    ensures Contains(Concat(HtmlParts(p, d)), FooterOpen + d.title + FooterClose)
  {
    PieceInTemplate(p, d, 14, FooterOpen + d.title + FooterClose);
  }

  lemma TemplateShowsSubtitle(p: PageText, d: SiteData)
    ensures Contains(Concat(HtmlParts(p, d)),
      SubtitleOpen + d.partnerName1 + " " + Heart + " " + d.partnerName2 + ParagraphClose)
  {
    PieceInTemplate(p, d, 5, SubtitleOpen + d.partnerName1 + " " + Heart + " " + d.partnerName2 + ParagraphClose);
  }

  lemma TemplateShowsMessage(p: PageText, d: SiteData)
    ensures Contains(Concat(HtmlParts(p, d)), MessageOpen + d.message + ParagraphClose)
  {
    PieceInTemplate(p, d, 12, MessageOpen + d.message + ParagraphClose);
  }

  lemma PieceInTemplate(p: PageText, d: SiteData, k: nat, t: string)
    requires k < |HtmlParts(p, d)| && HtmlParts(p, d)[k] == t
    ensures Contains(Concat(HtmlParts(p, d)), t)
  {
    ContainsPart(HtmlParts(p, d), k);
  }

  /** The relationship date is pasted verbatim into the script's `new Date('...')`, and the
      page carries the four counter cells, each showing `0` until the script runs. */
  lemma HtmlEmbedsDateAndCounters(d: SiteData)
    ensures Contains(GenerateHtml(d), DateOpen + d.relationshipDate + DateClose)
    ensures Contains(GenerateHtml(d), CounterSpan("years"))
    ensures Contains(GenerateHtml(d), CounterSpan("months"))
    ensures Contains(GenerateHtml(d), CounterSpan("days"))
    ensures Contains(GenerateHtml(d), CounterSpan("hours"))
  {
    TemplateEmbedsDateAndCounters(Page, d);
  }

  lemma TemplateEmbedsDateAndCounters(p: PageText, d: SiteData)
    ensures Contains(Concat(HtmlParts(p, d)), DateOpen + d.relationshipDate + DateClose)
    ensures Contains(Concat(HtmlParts(p, d)), CounterSpan("years"))
    ensures Contains(Concat(HtmlParts(p, d)), CounterSpan("months"))
    ensures Contains(Concat(HtmlParts(p, d)), CounterSpan("days"))
    ensures Contains(Concat(HtmlParts(p, d)), CounterSpan("hours"))
  {
    var parts := HtmlParts(p, d);
    PieceInTemplate(p, d, 16, DateOpen + d.relationshipDate + DateClose);
    CellInPage(parts, 7, "years", "Anos");
    CellInPage(parts, 8, "months", "Meses");
    CellInPage(parts, 9, "days", "Dias");
    CellInPage(parts, 10, "hours", "Horas");
  }

  lemma CellInPage(parts: seq<string>, k: nat, id: string, caption: string)
    requires k < |parts| && parts[k] == CounterItem(id, caption)
    ensures Contains(Concat(parts), CounterSpan(id))
  {
    ContainsPart(parts, k);
    SpanInItem(id, caption);
    ContainsTransitive(Concat(parts), CounterItem(id, caption), CounterSpan(id));
  }

  lemma SpanInItem(id: string, caption: string)
    ensures Contains(CounterItem(id, caption), CounterSpan(id))
  {
    var span := CounterSpan(id);
    assert OccursAt(span, span, 0);
    ContainsExtended(span, span, ItemOpen, ItemMiddle + caption + ItemClose);
  }

  /** The page text depends only on the title, the names, the date and the message: the
      colour, the photos and the video link do not reach it. */
  lemma HtmlIgnoresStyleAndMedia(d1: SiteData, d2: SiteData)
    requires d1.title == d2.title && d1.partnerName1 == d2.partnerName1
    requires d1.partnerName2 == d2.partnerName2 && d1.relationshipDate == d2.relationshipDate
    requires d1.message == d2.message
    ensures GenerateHtml(d1) == GenerateHtml(d2)
  {
  }

  /** `generateCSS`: the fixed style sheet with the primary colour interpolated twice, as the
      colour of `.title` and of `.counter-number`. */
  function GenerateCss(d: SiteData): string {
    Interpolate2(CssHead, d.primaryColor, CssMiddle, CssTail)
  }

  function Interpolate2(head: string, x: string, middle: string, tail: string): string {
    head + x + middle + x + tail
  }

  lemma Interpolate2Injective(head: string, middle: string, tail: string, x: string, y: string)
    requires Interpolate2(head, x, middle, tail) == Interpolate2(head, y, middle, tail)
    ensures x == y
  {
    var s := Interpolate2(head, x, middle, tail);
    assert |x| == |y|;
    assert s[|head|..|head| + |x|] == x;
    assert s[|head|..|head| + |y|] == y;
  }

  /** Two records give the same style sheet exactly when their primary colours agree. */
  lemma CssDeterminedByColor(d1: SiteData, d2: SiteData)
    ensures GenerateCss(d1) == GenerateCss(d2) <==> d1.primaryColor == d2.primaryColor
  {
    if GenerateCss(d1) == GenerateCss(d2) {
      Interpolate2Injective(CssHead, CssMiddle, CssTail, d1.primaryColor, d2.primaryColor);
    }
  }

  /** The colour is interpolated exactly twice: each character more in the colour makes the
      style sheet two characters longer. */
  lemma CssHoldsColorTwice(d1: SiteData, d2: SiteData)
    ensures |GenerateCss(d1)| - |GenerateCss(d2)| == 2 * (|d1.primaryColor| - |d2.primaryColor|)
  {
  }

  const SiteUrlPrefix: string := "https://love-counter-"
  const SiteUrlSuffix: string := ".lovable.app"

  /** What `Math.random().toString(36)` can return: `"0"`, or `"0."` followed by base-36
      digits of the fraction. */
  predicate IsRandomBase36(r: string) {
    r == "0" || (|r| >= 2 && r[0] == '0' && r[1] == '.' && AllBase36Digits(r[2..]))
  }

  /** `Math.random().toString(36).substring(2, 15)`: at most 13 characters, all base-36
      digits when the input is such a text. */
  function SiteId(random: string): (id: string)
    ensures |id| <= 13
    ensures IsRandomBase36(random) ==> AllBase36Digits(id)
  {
    Substring(random, 2, 15)
  }

  function SiteUrl(id: string): string {
    SiteUrlPrefix + id + SiteUrlSuffix
  }

  /** `generateSiteUrl`, with the random text passed in; the `console.log` is not modelled. */
  function GenerateSiteUrl(d: SiteData, random: string): string {
    SiteUrl(SiteId(random))
  }

  /** Reads the id back out of a site URL. */
  function SiteIdOfUrl(url: string): string {
    if |url| >= |SiteUrlPrefix| + |SiteUrlSuffix| then url[|SiteUrlPrefix|..|url| - |SiteUrlSuffix|] else ""
  }

  /** The URL carries its id between the fixed prefix and suffix, and distinct ids give
      distinct URLs. */
  lemma SiteUrlRoundTrip(id: string)
    ensures SiteIdOfUrl(SiteUrl(id)) == id
    ensures SiteUrl(id)[..|SiteUrlPrefix|] == SiteUrlPrefix
    ensures SiteUrl(id)[|SiteUrl(id)| - |SiteUrlSuffix|..] == SiteUrlSuffix
  {
    var u := SiteUrl(id);
    assert u[|SiteUrlPrefix|..|u| - |SiteUrlSuffix|] == id;
  }

  /** The generated URL does not depend on the record at all, only on the random text. */
  lemma SiteUrlOnlyFromRandom(d1: SiteData, d2: SiteData, random: string)
    ensures GenerateSiteUrl(d1, random) == GenerateSiteUrl(d2, random)
    ensures |GenerateSiteUrl(d1, random)| <= |SiteUrlPrefix| + 13 + |SiteUrlSuffix|
  {
  }

  /** The script the page embeds (lines after `<script>`): one immediate `updateCounter()`
      and then one per hour, with no cleanup, since the page never tears it down.  Unlike the
      preview, the script has no guard for an empty date: `new Date('')` is an invalid date,
      so the page then shows NaN in every cell. */
  class EmbeddedCounter {
    /** What the four counter cells show after the last update. */
    var shown: Counter.Reading
    /** The parsed value of the pasted date. */
    const anchor: Option<int>
    ghost var published: seq<Counter.Reading>

    constructor Load(d: SiteData, parsed: Option<int>, now: int)
      requires d.relationshipDate == [] ==> parsed.None?
      ensures anchor == parsed
      ensures published == [shown] && shown == Counter.Measure(parsed, now)
      ensures d.relationshipDate == [] ==> shown == Counter.NotANumber
    {
      anchor := parsed;
      shown := Counter.Measure(parsed, now);
      published := [Counter.Measure(parsed, now)];
    }

    /** Every hourly tick republishes for the current instant. */
    method Tick(now: int)
      modifies this
      ensures shown == Counter.Measure(anchor, now) && published == old(published) + [shown]
    {
      shown := Counter.Measure(anchor, now);
      published := published + [shown];
    }
  }

  /** The document head up to the `<title>` element. */
  const DocHead: string :=
@"<!DOCTYPE html>
<html lang=""pt-BR"">
<head>
    <meta charset=""UTF-8"">
    <meta name=""viewport"" content=""width=device-width, initial-scale=1.0"">
    "

  /** From the end of `<title>` to the page heading. */
  const HeadToHeading: string :=
@"
    <link rel=""stylesheet"" href=""style.css"">
</head>
<body>
    <div class=""container"">
        <header class=""header"">
            "

  /** Between the heading and the subtitle. */
  const HeadingToSubtitle: string :=
@"
            "

  /** From the end of the counter section to the message paragraph. */
  const CountersToMessage: string :=
@"            </div>
            
            <div class=""message-section"">
                "

  /** From the message paragraph to the footer paragraph. */
  const MessageToFooter: string :=
@"
            </div>
        </main>
        
        <footer class=""footer"">
            "

  /** From the footer to the date literal inside the embedded `updateCounter`. */
  const FooterToDate: string :=
@"
        </footer>
    </div>

    <script>
        function updateCounter() {
            const startDate = "

  /** The rest of the embedded script and of the document: the arithmetic of `Counter.Elapsed`, the four `textContent` writes, one immediate call and `setInterval(updateCounter, 3600000)`. */
  const ScriptTail: string :=
@";
            const now = new Date();
            
            const diff = now - startDate;
            
            const years = Math.floor(diff / (1000 * 60 * 60 * 24 * 365));
            const months = Math.floor((diff % (1000 * 60 * 60 * 24 * 365)) / (1000 * 60 * 60 * 24 * 30));
            const days = Math.floor((diff % (1000 * 60 * 60 * 24 * 30)) / (1000 * 60 * 60 * 24));
            const hours = Math.floor((diff % (1000 * 60 * 60 * 24)) / (1000 * 60 * 60));
            
            document.getElementById('years').textContent = years;
            document.getElementById('months').textContent = months;
            document.getElementById('days').textContent = days;
            document.getElementById('hours').textContent = hours;
        }
        
        updateCounter();
        setInterval(updateCounter, 3600000); // Atualiza a cada hora
    </script>
</body>
</html>"

  /** The style sheet up to the colour of `.title`. */
  const CssHead: string :=
@"* {
    margin: 0;
    padding: 0;
    box-sizing: border-box;
}

body {
    font-family: -apple-system, BlinkMacSystemFont, 'Segoe UI', Roboto, sans-serif;
    line-height: 1.6;
    color: #fff;
    background: linear-gradient(135deg, #1a1a2e, #16213e, #0f3460);
    min-height: 100vh;
}

.container {
    max-width: 800px;
    margin: 0 auto;
    padding: 2rem;
    min-height: 100vh;
    display: flex;
    flex-direction: column;
    justify-content: center;
    align-items: center;
    text-align: center;
}

.header {
    margin-bottom: 3rem;
    animation: fadeInUp 0.8s ease-out;
}

.title {
    font-size: 3rem;
    font-weight: 700;
    color: "

  /** From the colour of `.title` to the colour of `.counter-number`. */
  const CssMiddle: string :=
@";
    margin-bottom: 1rem;
    text-shadow: 0 2px 4px rgba(0,0,0,0.3);
}

.subtitle {
    font-size: 1.5rem;
    color: #e0e0e0;
    font-weight: 300;
}

.main {
    margin-bottom: 3rem;
    animation: fadeInUp 0.8s ease-out 0.2s both;
}

.counter-section {
    display: grid;
    grid-template-columns: repeat(auto-fit, minmax(120px, 1fr));
    gap: 2rem;
    margin-bottom: 3rem;
}

.counter-item {
    background: rgba(255, 255, 255, 0.1);
    padding: 2rem 1rem;
    border-radius: 20px;
    backdrop-filter: blur(10px);
    border: 1px solid rgba(255, 255, 255, 0.2);
    transition: transform 0.3s ease;
}

.counter-item:hover {
    transform: translateY(-5px);
}

.counter-number {
    display: block;
    font-size: 3rem;
    font-weight: 700;
    color: "

  /** The style sheet after the colour of `.counter-number`. */
  const CssTail: string :=
@";
    text-shadow: 0 2px 4px rgba(0,0,0,0.3);
}

.counter-label {
    display: block;
    font-size: 1rem;
    color: #e0e0e0;
    margin-top: 0.5rem;
    text-transform: uppercase;
    letter-spacing: 1px;
}

.message-section {
    background: rgba(255, 255, 255, 0.1);
    padding: 2rem;
    border-radius: 20px;
    backdrop-filter: blur(10px);
    border: 1px solid rgba(255, 255, 255, 0.2);
}

.message {
    font-size: 1.2rem;
    line-height: 1.8;
    color: #e0e0e0;
    font-style: italic;
}

.footer {
    margin-top: auto;
    padding-top: 2rem;
    color: #888;
    font-size: 0.9rem;
    animation: fadeInUp 0.8s ease-out 0.4s both;
}

@keyframes fadeInUp {
    from {
        opacity: 0;
        transform: translateY(30px);
    }
    to {
        opacity: 1;
        transform: translateY(0);
    }
}

@media (max-width: 768px) {
    .container {
        padding: 1rem;
    }
    
    .title {
        font-size: 2rem;
    }
    
    .counter-section {
        grid-template-columns: repeat(2, 1fr);
        gap: 1rem;
    }
    
    .counter-number {
        font-size: 2rem;
    }
}"
}
