/** The five-step form that collects a record: the step counter, the field edits, the
    per-step validity check, the button wiring that gates advancing and generating, the
    generation of the site address, and the reset of the result screen. */
module LoveCounterGenerator {
  import opened JsString
  import opened SiteGenerator
  import LoveCounterPreview
  import Counter

  /** The length of the `steps` list. */
  const StepCount: int := 5

  /** The text fields `handleInputChange` is called with. */
  datatype Field = Title | PartnerName1 | PartnerName2 | RelationshipDate | Message | PrimaryColor

  function Get(d: SiteData, f: Field): string {
    match f
    case Title => d.title
    case PartnerName1 => d.partnerName1
    case PartnerName2 => d.partnerName2
    case RelationshipDate => d.relationshipDate
    case Message => d.message
    case PrimaryColor => d.primaryColor
  }

  /** `{ ...prev, [field]: value }`. */
  function Set(d: SiteData, f: Field, v: string): (r: SiteData)
    ensures Get(r, f) == v
    ensures forall g :: g != f ==> Get(r, g) == Get(d, g)
    ensures r.photos == d.photos && r.youtubeUrl == d.youtubeUrl
  {
    match f
    case Title => d.(title := v)
    case PartnerName1 => d.(partnerName1 := v)
    case PartnerName2 => d.(partnerName2 := v)
    case RelationshipDate => d.(relationshipDate := v)
    case Message => d.(message := v)
    case PrimaryColor => d.(primaryColor := v)
  }

  /** Setting a field twice keeps the last value; setting it to what it holds changes nothing. */
  lemma SetLastWins(d: SiteData, f: Field, v: string, w: string)
    ensures Set(Set(d, f, v), f, w) == Set(d, f, w)
    ensures Set(d, f, Get(d, f)) == d
  {
  }

  /** The step whose inputs edit a field. */
  function StepOf(f: Field): (s: int)
    ensures 1 <= s <= StepCount
  {
    match f
    case Title => 1
    case PartnerName1 | PartnerName2 => 2
    case RelationshipDate => 3
    case Message => 4
    case PrimaryColor => 5
  }

  /** `isStepValid()` for the step `step`. */
  predicate IsStepValid(step: int, d: SiteData) {
    if step == 1 then Trim(d.title) != []
    else if step == 2 then Trim(d.partnerName1) != [] && Trim(d.partnerName2) != []
    else if step == 3 then d.relationshipDate != []
    else if step == 4 then Trim(d.message) != []
    else if step == 5 then d.primaryColor != []
    else false
  }

  /** The validity table: steps 1, 2 and 4 reject texts made only of whitespace, steps 3 and 5
      only the empty text, and there is no other valid step. */
  lemma StepValidity(d: SiteData)
    ensures IsStepValid(1, d) <==> !Blank(d.title)
    ensures IsStepValid(2, d) <==> !Blank(d.partnerName1) && !Blank(d.partnerName2)
    ensures IsStepValid(3, d) <==> d.relationshipDate != []
    ensures IsStepValid(4, d) <==> !Blank(d.message)
    ensures IsStepValid(5, d) <==> d.primaryColor != []
    ensures forall s :: !(1 <= s <= StepCount) ==> !IsStepValid(s, d)
  {
    TrimEmptyIffBlank(d.title);
    TrimEmptyIffBlank(d.partnerName1);
    TrimEmptyIffBlank(d.partnerName2);
    TrimEmptyIffBlank(d.message);
    forall s | !(1 <= s <= StepCount) ensures !IsStepValid(s, d) {
      NoStepOutsideRange(s, d);
    }
  }

  lemma NoStepOutsideRange(s: int, d: SiteData)
    requires !(1 <= s <= StepCount)
    ensures !IsStepValid(s, d)
  {
  }

  /** A step's validity reads only the fields that step's inputs edit. */
  lemma ValidityIsLocal(step: int, d: SiteData, f: Field, v: string)
    requires StepOf(f) != step
    ensures IsStepValid(step, Set(d, f, v)) == IsStepValid(step, d)
  {
  }

  /** The record the form starts from and returns to. */
  const InitialRecord: SiteData := SiteData("", "", "", "", "", DefaultColor, [], "")

  /** Only the colour step is valid for the initial record. */
  lemma InitialValidity()
    ensures forall s :: IsStepValid(s, InitialRecord) <==> s == StepCount
  {
  }

  class Wizard {
    var currentStep: int
    var generatedUrl: string
    var siteData: SiteData

    ghost predicate Valid()
      reads this
    {
      1 <= currentStep <= StepCount
    }

    /** The form was never bypassed: every step before the current one is valid, and a
        generated address exists only after the last step was valid. */
    ghost predicate Gated()
      reads this
    {
      && (forall s :: 1 <= s < currentStep ==> IsStepValid(s, siteData))
      && (generatedUrl != [] ==> currentStep == StepCount && IsStepValid(StepCount, siteData))
    }

    /** The result screen replaces the form while an address is held. */
    predicate ShowsResult()
      reads this
    {
      generatedUrl != []
    }

    constructor ()
      ensures Valid() && Gated()
      ensures currentStep == 1 && generatedUrl == [] && siteData == InitialRecord
    {
      currentStep := 1;
      generatedUrl := [];
      siteData := InitialRecord;
    }

    /** `handleInputChange(field, value)`. */
    method HandleInputChange(f: Field, v: string)
      modifies this`siteData
      ensures siteData == Set(old(siteData), f, v)
    {
      siteData := Set(siteData, f, v);
    }

    /** `nextStep`: one step forward, except at the last step. */
    method NextStep()
      requires Valid()
      modifies this`currentStep
      ensures Valid()
      ensures currentStep == if old(currentStep) < StepCount then old(currentStep) + 1 else old(currentStep)
    {
      if currentStep < StepCount {
        currentStep := currentStep + 1;
      }
    }

    /** `prevStep`: one step back, except at the first step. */
    method PrevStep()
      requires Valid()
      modifies this`currentStep
      ensures Valid()
      ensures currentStep == if old(currentStep) > 1 then old(currentStep) - 1 else old(currentStep)
    {
      if currentStep > 1 {
        currentStep := currentStep - 1;
      }
    }

    /** `generateSite`: `random` is the `Math.random().toString(36)` text the address is made
        from, or `None` when the call throws; then the address is left as it was. */
    method GenerateSite(random: Option<string>)
      modifies this`generatedUrl
      ensures random.Some? ==> generatedUrl == GenerateSiteUrl(siteData, random.value)
      ensures random.None? ==> generatedUrl == old(generatedUrl)
    {
      if random.Some? {
        generatedUrl := GenerateSiteUrl(siteData, random.value);
      }
    }

    /** "Criar Novo Site" on the result screen: back to step 1 with the initial record. */
    method Reset()
      modifies this
      ensures Valid() && Gated()
      ensures currentStep == 1 && generatedUrl == [] && siteData == InitialRecord
    {
      generatedUrl := [];
      currentStep := 1;
      siteData := InitialRecord;
    }

    // The buttons and inputs of the form.  A disabled or hidden control does nothing.

    /** "Próxima etapa", shown before the last step and enabled when the step is valid. */
    method ClickNext()
      requires Valid() && Gated()
      modifies this`currentStep
      ensures Valid() && Gated()
      ensures old(!ShowsResult() && currentStep < StepCount && IsStepValid(currentStep, siteData)) ==>
        currentStep == old(currentStep) + 1
      ensures !old(!ShowsResult() && currentStep < StepCount && IsStepValid(currentStep, siteData)) ==>
        currentStep == old(currentStep)
    {
      if !ShowsResult() && currentStep < StepCount && IsStepValid(currentStep, siteData) {
        NextStep();
      }
    }

    /** "Voltar", shown after the first step. */
    method ClickBack()
      requires Valid() && Gated()
      modifies this`currentStep
      ensures Valid() && Gated()
      ensures currentStep == if !old(ShowsResult()) && old(currentStep) > 1 then old(currentStep) - 1 else old(currentStep)
    {
      if !ShowsResult() && currentStep > 1 {
        PrevStep();
      }
    }

    /** Typing `v` into the input for `f`: only the current step's inputs are on screen. */
    method EditInput(f: Field, v: string)
      requires Valid() && Gated()
      modifies this`siteData
      ensures Valid() && Gated()
      ensures siteData == if !old(ShowsResult()) && StepOf(f) == currentStep then Set(old(siteData), f, v) else old(siteData)
    {
      if !ShowsResult() && StepOf(f) == currentStep {
        forall s | 1 <= s < currentStep ensures IsStepValid(s, Set(siteData, f, v)) {
          ValidityIsLocal(s, siteData, f, v);
        }
        HandleInputChange(f, v);
      }
    }

    /** "Gerar Site", shown at the last step and enabled when it is valid. */
    method ClickGenerate(random: Option<string>)
      requires Valid() && Gated()
      modifies this`generatedUrl
      ensures Valid() && Gated()
      ensures old(!ShowsResult() && currentStep == StepCount && IsStepValid(currentStep, siteData)) && random.Some? ==>
        generatedUrl == GenerateSiteUrl(siteData, random.value)
      ensures !(old(!ShowsResult() && currentStep == StepCount && IsStepValid(currentStep, siteData)) && random.Some?) ==>
        generatedUrl == old(generatedUrl)
    {
      if !ShowsResult() && currentStep == StepCount && IsStepValid(currentStep, siteData) {
        GenerateSite(random);
      }
    }

    /** "Criar Novo Site", on the result screen only. */
    method ClickCreateNew()
      requires Valid() && Gated()
      modifies this
      ensures Valid() && Gated()
      ensures old(ShowsResult()) ==> currentStep == 1 && generatedUrl == [] && siteData == InitialRecord
      ensures !old(ShowsResult()) ==>
        currentStep == old(currentStep) && generatedUrl == old(generatedUrl) && siteData == old(siteData)
    {
      if ShowsResult() {
        Reset();
      }
    }

    /** A generated address means the whole form was filled in validly. */
    lemma GeneratedMeansComplete()
      requires Valid() && Gated() && ShowsResult()
      ensures forall s :: 1 <= s <= StepCount ==> IsStepValid(s, siteData)
    {
    }
  }

  /** What a user can do on the wizard's screen: type into an input, press one of its four
      buttons ("Próxima etapa", "Voltar", "Gerar Site", "Criar Novo Site").  `Generate` carries
      the `Math.random()` text, or `None` when the call throws.  The result screen's copy and
      open buttons change no state and are not actions here. */
  datatype Action = Type(field: Field, value: string) | Next | Back | Generate(random: Option<string>) | CreateNew

  /** A session of arbitrary actions on a fresh wizard.  It returns the address on screen, the
      record and the step the wizard ends with.  A non-empty address is a site address, and
      every step is valid on the final record.  Conversely, generating successfully at the last
      step with that step valid always produces an address. */
  method Session(actions: seq<Action>) returns (url: string, final: SiteData, step: int)
    ensures 1 <= step <= StepCount
    ensures url != [] ==> step == StepCount && forall s :: 1 <= s <= StepCount ==> IsStepValid(s, final)
    ensures url != [] ==> exists r :: url == GenerateSiteUrl(final, r)
    ensures (actions != [] && actions[|actions| - 1].Generate? && actions[|actions| - 1].random.Some?
      && step == StepCount && IsStepValid(StepCount, final)) ==> url != []
  {
    var w := new Wizard();
    ghost var used: string := [];
    var i := 0;
    while i < |actions|
      invariant 0 <= i <= |actions|
      invariant w.Valid() && w.Gated()
      invariant w.generatedUrl != [] ==> w.generatedUrl == GenerateSiteUrl(w.siteData, used)
      invariant (i > 0 && actions[i - 1].Generate? && actions[i - 1].random.Some?
        && w.currentStep == StepCount && IsStepValid(StepCount, w.siteData)) ==> w.generatedUrl != []
      modifies w
    {
      match actions[i] {
        case Type(f, v) => w.EditInput(f, v);
        case Next => w.ClickNext();
        case Back => w.ClickBack();
        case Generate(r) =>
          var before := w.generatedUrl;
          w.ClickGenerate(r);
          if r.Some? && w.generatedUrl != before {
            used := r.value;
          }
        case CreateNew => w.ClickCreateNew();
      }
      i := i + 1;
    }
    url, final, step := w.generatedUrl, w.siteData, w.currentStep;
    if url != [] {
      w.GeneratedMeansComplete();
    }
  }

  // The wizard's initial state, as written, sets only the six text fields: the photo list and
  // the video link are absent, and the live preview reads `data.photos.length` on every render.

  /** `data.photos.length` when the property may be absent: reading it from an absent value
      throws, shown as `None`. */
  function PhotoCountAsWritten(photos: Option<seq<string>>): (r: Option<nat>)
    ensures r.None? <==> photos.None?
    ensures r.Some? ==> r.value == |photos.value|
  {
    match photos
    case None => None
    case Some(p) => Some(|p|)
  }

  /** The form state as written, where the photo list and the video link may be absent. */
  datatype FormStateAsWritten = FormStateAsWritten(
    title: string,
    partnerName1: string,
    partnerName2: string,
    relationshipDate: string,
    message: string,
    primaryColor: string,
    photos: Option<seq<string>>,
    youtubeUrl: Option<string>)

  /** The initial state as written: the six text fields, and nothing else. */
  const InitialStateAsWritten: FormStateAsWritten :=
    FormStateAsWritten("", "", "", "", "", DefaultColor, None, None)

  /** The record the state stands for once both optional properties are present; an absent
      video link is falsy in the preview's test, like the empty one. */
  function Completed(f: FormStateAsWritten, photos: seq<string>): SiteData {
    SiteData(f.title, f.partnerName1, f.partnerName2, f.relationshipDate, f.message, f.primaryColor,
             photos, if f.youtubeUrl.Some? then f.youtubeUrl.value else "")
  }

  /** The preview rendered from a form state as written: `None` when the render throws.  The
      only read that can throw is `data.photos.length`. */
  function PreviewAsWritten(f: FormStateAsWritten, counter: Counter.Reading, random: string): (v: Option<LoveCounterPreview.PreviewView>)
    ensures v.None? <==> PhotoCountAsWritten(f.photos).None?
    ensures v.Some? ==> v.value == LoveCounterPreview.RenderPreview(Completed(f, f.photos.value), counter, random)
  {
    match PhotoCountAsWritten(f.photos)
    case None => None
    case Some(_) => Some(LoveCounterPreview.RenderPreview(Completed(f, f.photos.value), counter, random))
  }

  /** The first render of the preview throws on the initial state as written. */
  lemma InitialPreviewThrows(counter: Counter.Reading, random: string)
    ensures PreviewAsWritten(InitialStateAsWritten, counter, random).None?
  {
  }

  /** With the empty list the initial record evidently intends, the first preview renders
      without photos, without a player and with every fallback text. */
  lemma InitialPreviewRenders(counter: Counter.Reading, random: string)
    ensures var f := InitialStateAsWritten.(photos := Some(InitialRecord.photos));
      Completed(f, InitialRecord.photos) == InitialRecord
      && PreviewAsWritten(f, counter, random) == Some(LoveCounterPreview.RenderPreview(InitialRecord, counter, random))
    ensures var v := LoveCounterPreview.RenderPreview(InitialRecord, counter, random);
      v.carousel.None? && v.player.None? && v.heading == LoveCounterPreview.DefaultTitle
  {
  }

  /** The record "Criar Novo Site" installs, as written: again only the six text fields. */
  const ResetStateAsWritten: FormStateAsWritten :=
    FormStateAsWritten("", "", "", "", "", DefaultColor, None, None)

  /** The reset state as written is the initial state as written, so the preview that the
      form shows again after a reset throws as well. */
  lemma ResetPreviewThrows(counter: Counter.Reading, random: string)
    ensures ResetStateAsWritten == InitialStateAsWritten
    ensures PreviewAsWritten(ResetStateAsWritten, counter, random).None?
  {
  }

  /** With the empty photo list, the reset state is the record `Wizard.Reset` installs, and its
      preview renders. */
  lemma ResetPreviewRenders(counter: Counter.Reading, random: string)
    ensures var f := ResetStateAsWritten.(photos := Some([]));
      Completed(f, []) == InitialRecord
      && PreviewAsWritten(f, counter, random) == Some(LoveCounterPreview.RenderPreview(InitialRecord, counter, random))
  {
  }
}
