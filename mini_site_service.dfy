/** The persistence service around the managed record store: the unique URL of a saved
    site, the mapping of a page record to a stored row in `saveMiniSite`, and the way back in
    `convertMiniSiteToSiteData`.  The store itself (insert and select over the network) is not
    modelled; its outcome is a parameter. */
module MiniSiteService {
  import opened JsString
  import opened SiteGenerator

  /** A stored row.  The columns that the store declares nullable are `Option`s: a row read
      back may hold null there. */
  datatype MiniSiteData = MiniSiteData(
    pageTitle: string,
    message: Option<string>,
    startDate: Option<string>,
    photos: Option<seq<string>>,
    youtubeUrl: Option<string>,
    contactName: string,
    contactEmail: string,
    contactPhone: Option<string>,
    siteUrl: string,
    paymentStatus: Option<string>)

  const NameSeparator: string := " & "
  const ContactEmail: string := "contato@lovesite.com"
  const FreePayment: string := "free"
  const DefaultPartner1: string := "Partner 1"
  const DefaultPartner2: string := "Partner 2"

  // ---------------------------------------------------------------------------------------
  // The URL slug of `generateUniqueSiteUrl`

  predicate IsSlugChar(c: char) {
    ('a' <= c <= 'z') || ('0' <= c <= '9') || c == '-'
  }

  predicate IsAlphanumeric(c: char) {
    ('a' <= c <= 'z') || ('0' <= c <= '9')
  }

  predicate AllSlugChars(s: string) {
    forall i :: 0 <= i < |s| ==> IsSlugChar(s[i])
  }

  /** No two hyphens stand next to each other. */
  predicate NoDoubleHyphen(s: string) {
    forall i :: 0 <= i < |s| - 1 ==> !(s[i] == '-' && s[i + 1] == '-')
  }

  /** The letters and digits of `s`, in order. */
  function Alphanumerics(s: string): string {
    if s == [] then []
    else (if IsAlphanumeric(s[0]) then [s[0]] else []) + Alphanumerics(s[1..])
  }

  lemma AlphanumericsAppend(a: string, b: string)
    ensures Alphanumerics(a + b) == Alphanumerics(a) + Alphanumerics(b)
  {
    if a != [] {
      assert (a + b)[0] == a[0];
      assert (a + b)[1..] == a[1..] + b;
      AlphanumericsAppend(a[1..], b);
    } else {
      assert a + b == b;
    }
  }

  function LowerChar(c: char): char {
    if 'A' <= c <= 'Z' then (c as int + 32) as char else c
  }

  /** `toLowerCase` on ASCII letters; every other character is left as it is. */
  function LowerAscii(s: string): (r: string)
    ensures |r| == |s|
    ensures forall i :: 0 <= i < |s| ==> r[i] == LowerChar(s[i])
  {
    if s == [] then []
    else
      var rest := LowerAscii(s[1..]);
      assert forall i :: 1 <= i < |s| ==> s[i] == s[1..][i - 1];
      [LowerChar(s[0])] + rest
  }

  predicate Kept(c: char) {
    IsAlphanumeric(c) || IsWhitespace(c) || c == '-'
  }

  /** `.replace(/[^a-z0-9\s-]/g, '')`: drops every character that is neither a lower-case
      letter, a digit, whitespace nor a hyphen. */
  function StripSpecial(s: string): string {
    if s == [] then []
    else (if Kept(s[0]) then [s[0]] else []) + StripSpecial(s[1..])
  }

  /** Only characters of the class remain, and the letters and digits all remain, in order. */
  lemma {:induction false} StripSpecialShape(s: string)
    ensures forall i :: 0 <= i < |StripSpecial(s)| ==> Kept(StripSpecial(s)[i])
    ensures Alphanumerics(StripSpecial(s)) == Alphanumerics(s)
  {
    if s != [] {
      var rest := StripSpecial(s[1..]);
      StripSpecialShape(s[1..]);
      assert s == [s[0]] + s[1..];
      AlphanumericsAppend([s[0]], s[1..]);
      if Kept(s[0]) {
        assert StripSpecial(s) == [s[0]] + rest;
        AlphanumericsAppend([s[0]], rest);
      } else {
        assert StripSpecial(s) == rest;
      }
    }
  }

  /** The two run replacements of the slug: `/\s+/g` and `/-+/g`, each replaced by one `-`. */
  datatype RunKind = Spaces | Hyphens

  predicate InRun(k: RunKind, c: char) {
    match k
    case Spaces => IsWhitespace(c)
    case Hyphens => c == '-'
  }

  /** Replaces every maximal run of `k`-characters by a single hyphen; `afterRun` says whether the
      text before `s` ended inside such a run (already replaced). */
  function ReplaceRuns(s: string, k: RunKind, afterRun: bool): string
    decreases s
  {
    if s == [] then []
    else
      var rest := ReplaceRuns(s[1..], k, InRun(k, s[0]));
      if InRun(k, s[0]) then (if afterRun then rest else "-" + rest)
      else [s[0]] + rest
  }

  /** What the replacement output is made of: hyphens and characters of the input outside the
      run class; it keeps the letters and digits in order; replacing hyphen runs leaves no
      `--`, and after a run the output does not start with a hyphen. */
  lemma {:induction false} ReplaceRunsShape(s: string, k: RunKind, afterRun: bool)
    ensures var r := ReplaceRuns(s, k, afterRun);
      && (forall i :: 0 <= i < |r| ==> r[i] == '-' || (!InRun(k, r[i]) && r[i] in s))
      && Alphanumerics(r) == Alphanumerics(s)
      && (k == Hyphens ==> NoDoubleHyphen(r))
      && (k == Hyphens && afterRun ==> r == [] || r[0] != '-')
    decreases s
  {
    if s != [] {
      var rest := ReplaceRuns(s[1..], k, InRun(k, s[0]));
      ReplaceRunsShape(s[1..], k, InRun(k, s[0]));
      assert s == [s[0]] + s[1..];
      AlphanumericsAppend([s[0]], s[1..]);
      if InRun(k, s[0]) {
        assert Alphanumerics([s[0]]) == [] by {
          assert !IsAlphanumeric(s[0]);
        }
        if !afterRun {
          AlphanumericsAppend("-", rest);
        }
      } else {
        AlphanumericsAppend([s[0]], rest);
      }
    }
  }

  /** `replace` works character by character: stripping a concatenation strips each part,
      and a single character is kept exactly when it is in the class `[a-z0-9\s-]`. */
  lemma {:induction false} StripSpecialAppend(a: string, b: string)
    ensures StripSpecial(a + b) == StripSpecial(a) + StripSpecial(b)
    decreases |a|
  {
    if a == [] {
      assert a + b == b;
    } else {
      assert (a + b)[0] == a[0] && (a + b)[1..] == a[1..] + b;
      StripSpecialAppend(a[1..], b);
      var head := if Kept(a[0]) then [a[0]] else [];
      var tail, sb := StripSpecial(a[1..]), StripSpecial(b);
      assert StripSpecial(a) == head + tail;
      assert StripSpecial(a + b) == head + (tail + sb);
      assert head + (tail + sb) == (head + tail) + sb;
    }
  }

  lemma StripSpecialChar(c: char)
    ensures StripSpecial([c]) == if Kept(c) then [c] else []
  {
    assert StripSpecial([c][1..]) == [];
  }

  /** Whether the text so far ended inside a run, after reading `a` from state `afterRun`. */
  function EndsInRun(a: string, k: RunKind, afterRun: bool): bool {
    if a == [] then afterRun else InRun(k, a[|a| - 1])
  }

  /** The replacement reads the text left to right with one bit of state: replacing a
      concatenation replaces the first part, then the second from where the first ended. */
  lemma {:induction false} ReplaceRunsAppend(a: string, b: string, k: RunKind, afterRun: bool)
    ensures ReplaceRuns(a + b, k, afterRun) ==
      ReplaceRuns(a, k, afterRun) + ReplaceRuns(b, k, EndsInRun(a, k, afterRun))
    decreases |a|
  {
    if a == [] {
      assert a + b == b;
    } else {
      var f := InRun(k, a[0]);
      var rb := ReplaceRuns(b, k, EndsInRun(a, k, afterRun));
      calc {
        ReplaceRuns(a + b, k, afterRun);
      == { ReplaceRunsCons(a + b, k, afterRun);
           assert (a + b)[0] == a[0] && (a + b)[1..] == a[1..] + b; }
        RunHead(a[0], k, afterRun) + ReplaceRuns(a[1..] + b, k, f);
      == { ReplaceRunsAppend(a[1..], b, k, f);
           assert EndsInRun(a[1..], k, f) == EndsInRun(a, k, afterRun); }
        RunHead(a[0], k, afterRun) + (ReplaceRuns(a[1..], k, f) + rb);
      == // concatenation is associative
        (RunHead(a[0], k, afterRun) + ReplaceRuns(a[1..], k, f)) + rb;
      == { ReplaceRunsCons(a, k, afterRun); }
        ReplaceRuns(a, k, afterRun) + rb;
      }
    }
  }

  /** What the first character of a non-empty text contributes. */
  function RunHead(c: char, k: RunKind, afterRun: bool): string {
    if InRun(k, c) then (if afterRun then [] else "-") else [c]
  }

  lemma ReplaceRunsCons(s: string, k: RunKind, afterRun: bool)
    requires s != []
    ensures ReplaceRuns(s, k, afterRun) == RunHead(s[0], k, afterRun) + ReplaceRuns(s[1..], k, InRun(k, s[0]))
  {
  }

  /** A non-empty run becomes one hyphen, or nothing when it continues a run already replaced. */
  lemma {:induction false} ReplaceRunsOfRun(w: string, k: RunKind, afterRun: bool)
    requires w != [] && forall i :: 0 <= i < |w| ==> InRun(k, w[i])
    ensures ReplaceRuns(w, k, afterRun) == if afterRun then [] else "-"
    decreases |w|
  {
    if |w| > 1 {
      ReplaceRunsOfRun(w[1..], k, true);
    }
  }

  /** A text with no run character is left as it is. */
  lemma {:induction false} ReplaceRunsNoRun(s: string, k: RunKind, afterRun: bool)
    requires forall i :: 0 <= i < |s| ==> !InRun(k, s[i])
    ensures ReplaceRuns(s, k, afterRun) == s
    decreases |s|
  {
    if s != [] {
      ReplaceRunsNoRun(s[1..], k, false);
    }
  }

  /** A maximal run between `a` and `b` becomes exactly one hyphen at its place: the text
      before it is replaced on its own, and the text after it as following a run. */
  lemma RunBecomesHyphen(a: string, w: string, b: string, k: RunKind)
    requires w != [] && forall i :: 0 <= i < |w| ==> InRun(k, w[i])
    requires a == [] || !InRun(k, a[|a| - 1])
    ensures ReplaceRuns(a + w + b, k, false) == ReplaceRuns(a, k, false) + "-" + ReplaceRuns(b, k, true)
  {
    assert a + w + b == a + (w + b);
    AfterPlainText(a, w + b, k);
    RunThenRest(w, b, k);
    ConcatAssoc(ReplaceRuns(a, k, false), "-", ReplaceRuns(b, k, true));
  }

  lemma ConcatAssoc(x: string, y: string, z: string)
    ensures x + (y + z) == x + y + z
  {
  }

  /** Text that does not end inside a run leaves the next character's treatment unchanged. */
  lemma AfterPlainText(a: string, rest: string, k: RunKind)
    requires a == [] || !InRun(k, a[|a| - 1])
    ensures ReplaceRuns(a + rest, k, false) == ReplaceRuns(a, k, false) + ReplaceRuns(rest, k, false)
  {
    ReplaceRunsAppend(a, rest, k, false);
  }

  /** A run at the front becomes one hyphen, and what follows is read as coming after a run. */
  lemma RunThenRest(w: string, b: string, k: RunKind)
    requires w != [] && forall i :: 0 <= i < |w| ==> InRun(k, w[i])
    ensures ReplaceRuns(w + b, k, false) == "-" + ReplaceRuns(b, k, true)
  {
    ReplaceRunsAppend(w, b, k, false);
    assert EndsInRun(w, k, false);
    ReplaceRunsOfRun(w, k, false);
  }

  function Lowered(title: string): string { LowerAscii(title) }
  function Hyphenated(title: string): string { ReplaceRuns(StripSpecial(Lowered(title)), Spaces, false) }
  function Collapsed(title: string): string { ReplaceRuns(Hyphenated(title), Hyphens, false) }

  /** The slug base of `generateUniqueSiteUrl`: lower-case, strip, hyphenate, collapse, trim,
      and keep the first 30 characters.  Unicode case mapping and accent stripping are
      not modelled. */
  function SlugBase(title: string): string {
    Substring(Trim(Collapsed(title)), 0, 30)
  }

  lemma CollapsedShape(title: string)
    ensures AllSlugChars(Collapsed(title)) && NoDoubleHyphen(Collapsed(title))
    ensures Alphanumerics(Collapsed(title)) == Alphanumerics(LowerAscii(title))
  {
    var s := StripSpecial(Lowered(title));
    var h := Hyphenated(title);
    StripSpecialShape(Lowered(title));
    ReplaceRunsShape(s, Spaces, false);
    ReplaceRunsShape(h, Hyphens, false);
    forall i | 0 <= i < |h| ensures IsSlugChar(h[i]) && !IsWhitespace(h[i]) {
      if h[i] != '-' {
        var j :| 0 <= j < |s| && s[j] == h[i];
      }
    }
    var c := Collapsed(title);
    forall i | 0 <= i < |c| ensures IsSlugChar(c[i]) {
      if c[i] != '-' {
        var j :| 0 <= j < |h| && h[j] == c[i];
      }
    }
  }

  /** The `.trim()` step never changes anything: by then every whitespace run has become a
      hyphen.  So a slug may start or end with a hyphen. */
  lemma TrimIsNoOp(title: string)
    ensures Trim(Collapsed(title)) == Collapsed(title)
  {
    CollapsedShape(title);
    TrimNoWhitespace(Collapsed(title));
  }

  /** The slug base has at most 30 characters, all lower-case letters, digits or hyphens, never
      two hyphens in a row, and it begins with the input's letters and digits in order. */
  lemma SlugBaseShape(title: string)
    ensures |SlugBase(title)| <= 30
    ensures AllSlugChars(SlugBase(title)) && NoDoubleHyphen(SlugBase(title))
    ensures SlugBase(title) <= Collapsed(title)
    ensures |Collapsed(title)| <= 30 ==> SlugBase(title) == Collapsed(title)
    ensures Alphanumerics(Collapsed(title)) == Alphanumerics(LowerAscii(title))
  {
    var c := Collapsed(title);
    TrimIsNoOp(title);
    CollapsedShape(title);
    var b := Substring(c, 0, 30);
    assert SlugBase(title) == b;
    PrefixShape(b, c);
  }

  lemma PrefixShape(p: string, s: string)
    requires p <= s && AllSlugChars(s) && NoDoubleHyphen(s)
    ensures AllSlugChars(p) && NoDoubleHyphen(p)
  {
    assert forall i :: 0 <= i < |p| ==> p[i] == s[i];
  }

  /** A title with spaces around it keeps them as hyphens. */
  lemma SpacedTitleExample()
    ensures SlugBase(" Ana ") == "-ana-"
  {
    var t := " Ana ";
    var lowered := LowerAscii(t);
    assert lowered == " ana ";
    StripKeepsKept(lowered);
    assert Hyphenated(t) == ReplaceRuns(" ana ", Spaces, false);
    HyphenateExample();
    CollapseExample();
    TrimIsNoOp(t);
    assert Collapsed(t) == "-ana-";
  }

  lemma {:induction false} StripKeepsKept(s: string)
    requires forall i :: 0 <= i < |s| ==> Kept(s[i])
    ensures StripSpecial(s) == s
  {
    if s != [] {
      StripKeepsKept(s[1..]);
      assert s == [s[0]] + s[1..];
    }
  }

  lemma HyphenateExample()
    ensures ReplaceRuns(" ana ", Spaces, false) == "-ana-"
  {
    HyphenateTail();
    assert ReplaceRuns(" ana ", Spaces, false) == "-" + ReplaceRuns("ana ", Spaces, true);
  }

  lemma HyphenateTail()
    ensures ReplaceRuns("ana ", Spaces, true) == "ana-"
  {
    assert ReplaceRuns(" ", Spaces, false) == "-" + ReplaceRuns([], Spaces, true);
    assert ReplaceRuns("a ", Spaces, false) == "a" + ReplaceRuns(" ", Spaces, false);
    assert ReplaceRuns("na ", Spaces, false) == "n" + ReplaceRuns("a ", Spaces, false);
    assert ReplaceRuns("ana ", Spaces, true) == "a" + ReplaceRuns("na ", Spaces, false);
  }

  lemma CollapseExample()
    ensures ReplaceRuns("-ana-", Hyphens, false) == "-ana-"
  {
    assert ReplaceRuns("-", Hyphens, false) == "-" + ReplaceRuns([], Hyphens, true);
    assert ReplaceRuns("a-", Hyphens, false) == "a" + ReplaceRuns("-", Hyphens, false);
    assert ReplaceRuns("na-", Hyphens, false) == "n" + ReplaceRuns("a-", Hyphens, false);
    assert ReplaceRuns("ana-", Hyphens, true) == "a" + ReplaceRuns("na-", Hyphens, false);
    assert ReplaceRuns("-ana-", Hyphens, false) == "-" + ReplaceRuns("ana-", Hyphens, true);
  }

  /** `generateUniqueSiteUrl(title)`: the slug base, a hyphen and `Date.now().toString(36)`;
      the clock reading `now` is passed in. */
  function GenerateUniqueSiteUrl(title: string, now: nat): string {
    SlugBase(title) + "-" + IntToBase36(now)
  }

  /** The text after the last hyphen of `s` (all of `s` when it has none). */
  function AfterLastHyphen(s: string): string {
    if s == [] || s[|s| - 1] == '-' then [] else AfterLastHyphen(s[..|s| - 1]) + [s[|s| - 1]]
  }

  lemma {:induction false} AfterLastHyphenOf(a: string, b: string)
    requires '-' !in b
    ensures AfterLastHyphen(a + "-" + b) == b
    decreases |b|
  {
    var s := a + "-" + b;
    if b != [] {
      assert s[..|s| - 1] == a + "-" + b[..|b| - 1];
      assert b[|b| - 1] in b;
      AfterLastHyphenOf(a, b[..|b| - 1]);
      assert b[..|b| - 1] + [b[|b| - 1]] == b;
    } else {
      assert s[|s| - 1] == '-';
    }
  }

  /** The site URL uses only slug characters, and its last segment is the base-36 creation
      time: the instant can be read back, so sites created at different instants never share
      a URL. */
  lemma UniqueUrlShape(title: string, now: nat)
    ensures AllSlugChars(GenerateUniqueSiteUrl(title, now))
    ensures AllBase36Digits(AfterLastHyphen(GenerateUniqueSiteUrl(title, now)))
    ensures Base36Value(AfterLastHyphen(GenerateUniqueSiteUrl(title, now))) == now
  {
    var stamp := IntToBase36(now);
    var base := SlugBase(title);
    StampHasNoHyphen(stamp);
    AfterLastHyphenOf(base, stamp);
    Base36RoundTrip(now);
    SlugBaseShape(title);
    JoinSlugChars(base, stamp);
  }

  lemma StampHasNoHyphen(stamp: string)
    requires AllBase36Digits(stamp)
    ensures '-' !in stamp && AllSlugChars(stamp)
  {
  }

  lemma JoinSlugChars(a: string, b: string)
    requires AllSlugChars(a) && AllSlugChars(b)
    ensures AllSlugChars(a + "-" + b)
  {
    var s := a + "-" + b;
    forall i | 0 <= i < |s| ensures IsSlugChar(s[i]) {
      if i > |a| { assert s[i] == b[i - |a| - 1]; }
    }
  }

  lemma UniqueUrlsDiffer(t1: string, t2: string, n1: nat, n2: nat)
    requires n1 != n2
    ensures GenerateUniqueSiteUrl(t1, n1) != GenerateUniqueSiteUrl(t2, n2)
  {
    UniqueUrlShape(t1, n1);
    UniqueUrlShape(t2, n2);
  }

  // ---------------------------------------------------------------------------------------
  // `saveMiniSite`: the record-to-row mapping

  /** The row `saveMiniSite` inserts for a record, under the URL it generated. */
  function ToRow(d: SiteData, siteUrl: string): (row: MiniSiteData)
    ensures row.siteUrl == siteUrl && row.contactEmail == ContactEmail
    ensures row.paymentStatus == Some(FreePayment) && row.contactPhone.None?
  {
    MiniSiteData(
      pageTitle := d.title,
      message := Some(d.message),
      startDate := Some(d.relationshipDate),
      photos := Some(d.photos),
      youtubeUrl := Some(d.youtubeUrl),
      contactName := d.partnerName1 + NameSeparator + d.partnerName2,
      contactEmail := ContactEmail,
      contactPhone := None,
      siteUrl := siteUrl,
      paymentStatus := Some(FreePayment))
  }

  datatype SaveResult = Saved(url: string) | SaveFailed(reason: string)

  /** `saveMiniSite`: generate the URL, insert the row, and return the URL; when the store
      reports an error the call fails.  The store's answer is the parameter `storeError`. */
  function SaveMiniSite(d: SiteData, now: nat, storeError: bool): (r: SaveResult)
    ensures r.Saved? <==> !storeError
    ensures r.Saved? ==> r.url == ToRow(d, GenerateUniqueSiteUrl(d.title, now)).siteUrl
  {
    var url := GenerateUniqueSiteUrl(d.title, now);
    var row := ToRow(d, url);
    if storeError then SaveFailed("Failed to save mini site") else Saved(row.siteUrl)
  }

  // ---------------------------------------------------------------------------------------
  // `convertMiniSiteToSiteData`: splitting the contact name

  /** `s` holds the separator `" & "` at index `i`. */
  predicate SeparatorAt(s: string, i: int) {
    0 <= i && i + 3 <= |s| && s[i] == ' ' && s[i + 1] == '&' && s[i + 2] == ' '
  }

  predicate HasSeparator(s: string) {
    exists i :: 0 <= i <= |s| && SeparatorAt(s, i)
  }

  /** The first separator at or after index `from`. */
  function FindSeparator(s: string, from: nat): (r: Option<nat>)
    ensures r.Some? ==> from <= r.value && SeparatorAt(s, r.value)
    ensures r.Some? ==> forall j :: from <= j < r.value ==> !SeparatorAt(s, j)
    ensures r.None? ==> forall j :: from <= j ==> !SeparatorAt(s, j)
    decreases |s| - from
  {
    if from + 3 > |s| then None
    else if SeparatorAt(s, from) then Some(from)
    else FindSeparator(s, from + 1)
  }

  /** `s.split(' & ')`: the pieces between successive separators, left to right. */
  function Split(s: string): (r: seq<string>)
    ensures |r| >= 1
    ensures forall k :: 0 <= k < |r| ==> !HasSeparator(r[k])
    decreases |s|
  {
    match FindSeparator(s, 0)
    case None => [s]
    case Some(i) =>
      var head := s[..i];
      assert !HasSeparator(head) by {
        forall j | 0 <= j <= |head| ensures !SeparatorAt(head, j) {
          if SeparatorAt(head, j) { assert SeparatorAt(s, j); }
        }
      }
      [head] + Split(s[i + 3..])
  }

  /** `split` cuts at the leftmost separator: text without one is a single piece, and
      otherwise the first piece ends where the first separator starts and the other pieces
      are the split of the text after it. */
  lemma SplitCutsFirst(s: string)
    ensures |Split(s)| == 1 <==> !HasSeparator(s)
    ensures |Split(s)| > 1 ==> var i := |Split(s)[0]|;
      && FindSeparator(s, 0) == Some(i)
      && (forall j :: 0 <= j < i ==> !SeparatorAt(s, j))
      && Split(s)[0] == s[..i] && Split(s)[1..] == Split(s[i + 3..])
  {
    match FindSeparator(s, 0)
    case None =>
    case Some(i) =>
      assert Split(s) == [s[..i]] + Split(s[i + 3..]);
  }

  function Join(parts: seq<string>): string
    requires |parts| >= 1
  {
    if |parts| == 1 then parts[0] else parts[0] + NameSeparator + Join(parts[1..])
  }

  /** Splitting loses nothing: joining the pieces with the separator gives the text back. */
  lemma {:induction false} JoinSplit(s: string)
    ensures Join(Split(s)) == s
    decreases |s|
  {
    match FindSeparator(s, 0)
    case None =>
    case Some(i) =>
      var rest := s[i + 3..];
      JoinSplit(rest);
      assert Split(s) == [s[..i]] + Split(rest);
      assert s[i..i + 3] == NameSeparator;
      assert s == s[..i] + s[i..i + 3] + rest;
  }

  function FromNullable(s: Option<string>): string {
    match s
    case Some(v) => v
    case None => ""
  }

  /** `convertMiniSiteToSiteData`: the names come from splitting the contact name at `' & '`,
      with `'Partner 1'` and `'Partner 2'` standing in for an empty or missing piece; the
      colour is not stored, so it is always the default one. */
  function ConvertMiniSiteToSiteData(row: MiniSiteData): (d: SiteData)
    ensures d.primaryColor == DefaultColor && d.title == row.pageTitle
    ensures d.partnerName1 != [] && d.partnerName2 != []
  {
    var names := Split(row.contactName);
    SiteData(
      title := row.pageTitle,
      partnerName1 := Or(names[0], DefaultPartner1),
      partnerName2 := Or(if |names| > 1 then names[1] else "", DefaultPartner2),
      relationshipDate := FromNullable(row.startDate) ,
      message := FromNullable(row.message),
      primaryColor := DefaultColor,
      photos := match row.photos case Some(p) => p case None => [],
      youtubeUrl := FromNullable(row.youtubeUrl))
  }

  /** The two names come back from the joined contact name when neither holds the separator
      and the first does not end in `" &"` (which would form a separator with the one inserted
      after it). */
  predicate NamesSplitBack(n1: string, n2: string) {
    !HasSeparator(n1) && !HasSeparator(n2) && !(|n1| >= 2 && n1[|n1| - 2..] == " &")
  }

  lemma SplitJoinedNames(n1: string, n2: string)
    requires NamesSplitBack(n1, n2)
    ensures Split(n1 + NameSeparator + n2) == [n1, n2]
  {
    var s := n1 + NameSeparator + n2;
    forall j | 0 <= j < |n1| ensures !SeparatorAt(s, j) {
      if j == |n1| - 2 {
        assert n1[|n1| - 2..] == [s[j], s[j + 1]];
      } else if j + 3 <= |n1| {
        assert !SeparatorAt(n1, j);
        assert s[j] == n1[j] && s[j + 1] == n1[j + 1] && s[j + 2] == n1[j + 2];
      } else {
        assert s[j + 1] == NameSeparator[0];
      }
    }
    assert SeparatorAt(s, |n1|);
    assert FindSeparator(s, 0) == Some(|n1|);
    assert s[..|n1|] == n1;
    assert s[|n1| + 3..] == n2;
    assert Split(n2) == [n2];
    assert Split(s) == [n1] + Split(n2);
  }

  /** Saving and reading back keeps the title, the date, the message, the photos and the video
      link; the colour becomes the default one; the names come back (each empty one as its
      placeholder) whenever they split back. */
  lemma RoundTrip(d: SiteData, url: string)
    ensures var c := ConvertMiniSiteToSiteData(ToRow(d, url));
      && c.title == d.title && c.relationshipDate == d.relationshipDate && c.message == d.message
      && c.photos == d.photos && c.youtubeUrl == d.youtubeUrl && c.primaryColor == DefaultColor
    ensures var c := ConvertMiniSiteToSiteData(ToRow(d, url));
      NamesSplitBack(d.partnerName1, d.partnerName2) ==>
        c.partnerName1 == Or(d.partnerName1, DefaultPartner1) && c.partnerName2 == Or(d.partnerName2, DefaultPartner2)
  {
    if NamesSplitBack(d.partnerName1, d.partnerName2) {
      SplitJoinedNames(d.partnerName1, d.partnerName2);
    }
  }

  /** A first name ending in `" &"` does not come back: `"Ana &"` and `"Bia"` are stored as
      `"Ana & & Bia"`, which splits as `"Ana"` and `"& Bia"`. */
  lemma TrailingAmpersandBreaksRoundTrip(d: SiteData, url: string)
    requires d.partnerName1 == "Ana &" && d.partnerName2 == "Bia"
    ensures ConvertMiniSiteToSiteData(ToRow(d, url)).partnerName1 == "Ana"
    ensures ConvertMiniSiteToSiteData(ToRow(d, url)).partnerName2 == "& Bia"
  {
    assert ToRow(d, url).contactName == "Ana & & Bia";
    SplitTrailing();
    NamesOf(ToRow(d, url));
  }

  lemma SplitTrailing()
    ensures Split("Ana & & Bia") == ["Ana", "& Bia"]
  {
    var s := "Ana & & Bia";
    assert !SeparatorAt(s, 0) && !SeparatorAt(s, 1) && !SeparatorAt(s, 2) && SeparatorAt(s, 3);
    assert FindSeparator(s, 0) == Some(3);
    var rest := s[6..];
    assert rest == "& Bia";
    assert Split(rest) == [rest];
    assert s[..3] == "Ana";
    assert Split(s) == [s[..3]] + Split(rest);
  }

  /** Pieces after the second are dropped: the contact name `"A & B & C"` (stored for the
      names `"A & B"` and `"C"`) comes back as the names `"A"` and `"B"`. */
  lemma ThirdPieceDropped(row: MiniSiteData)
    requires row.contactName == "A & B & C"
    ensures ConvertMiniSiteToSiteData(row).partnerName1 == "A"
    ensures ConvertMiniSiteToSiteData(row).partnerName2 == "B"
  {
    SplitThree();
    NamesOf(row);
  }

  lemma NamesOf(row: MiniSiteData)
    ensures var names := Split(row.contactName);
      && ConvertMiniSiteToSiteData(row).partnerName1 == Or(names[0], DefaultPartner1)
      && ConvertMiniSiteToSiteData(row).partnerName2 == Or(if |names| > 1 then names[1] else "", DefaultPartner2)
  {
  }

  lemma SplitThree()
    ensures Split("A & B & C") == ["A", "B", "C"]
  {
    var s := "A & B & C";
    SplitJoinedNames("B", "C");
    assert "B" + NameSeparator + "C" == s[4..];
    assert !SeparatorAt(s, 0) && SeparatorAt(s, 1);
    assert FindSeparator(s, 0) == Some(1);
    assert s[..1] == "A";
    assert Split(s) == [s[..1]] + Split(s[4..]);
  }

  /** A row read back with null columns gets empty texts and no photos. */
  lemma NullColumnsBecomeEmpty(row: MiniSiteData)
    requires row.startDate.None? && row.message.None? && row.photos.None? && row.youtubeUrl.None?
    ensures var d := ConvertMiniSiteToSiteData(row);
      d.relationshipDate == [] && d.message == [] && d.photos == [] && d.youtubeUrl == []
  {
  }
}
