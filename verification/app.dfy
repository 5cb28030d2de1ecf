/** The top-level controller of `App.tsx`: which screen is shown, the
    synthesized profile, the text buffer and the two busy flags, driven by
    the controls that are actually on screen and by the completion of the
    two asynchronous operations (profile synthesis and file reading).
    The synthesis service and the PDF library are outside the model: their
    results arrive as event payloads. */
module App {
  import opened Wrappers
  import opened Text
  import opened Profile
  import PortfolioPage = Portfolio

  // ---------------------------------------------------------------------
  // PDF text assembly

  /** The text of one page: its text items joined by a single space. */
  function PageText(items: seq<string>): (text: string) {
    Join(items, " ")
  }

  function PageTexts(pages: seq<seq<string>>): (r: seq<string>)
    ensures |r| == |pages|
    ensures forall i :: 0 <= i < |pages| ==> r[i] == PageText(pages[i])
  {
    seq(|pages|, i requires 0 <= i < |pages| => PageText(pages[i]))
  }

  /** The extracted document text: every page's text followed by a line
      feed, pages in order. */
  function ExtractText(pages: seq<seq<string>>): (text: string)
    ensures |pages| == 0 ==> text == ""
    ensures |pages| > 0 ==> |text| > 0 && text[|text| - 1] == '\n'
    decreases |pages|
  {
    if |pages| == 0 then ""
    else ExtractText(pages[..|pages| - 1]) + PageText(pages[|pages| - 1]) + "\n"
  }

  /** The page loop of `extractTextFromPdf`, over the item strings the PDF
      library returned for each page. */
  method ExtractTextFromPdf(pages: seq<seq<string>>) returns (fullText: string)
    ensures fullText == ExtractText(pages)
  {
    fullText := "";
    var i := 0;
    while i < |pages|
      invariant 0 <= i <= |pages|
      invariant fullText == ExtractText(pages[..i])
    {
      var pageText := Join(pages[i], " ");
      fullText := fullText + pageText + "\n";
      assert pages[..i + 1][..i] == pages[..i];
      i := i + 1;
    }
    assert pages[..|pages|] == pages;
  }

  /** The extracted text is the page texts joined by line feeds, with one
      more line feed closing the last page. */
  lemma {:induction false} ExtractTextIsJoin(pages: seq<seq<string>>)
    ensures ExtractText(pages) == Join(PageTexts(pages) + [""], "\n")
    decreases |pages|
  {
    if |pages| > 0 {
      var init := pages[..|pages| - 1];
      var t := PageText(pages[|pages| - 1]);
      var texts := PageTexts(init);
      assert ExtractText(init) == Join(texts + [""], "\n") by { ExtractTextIsJoin(init); }
      assert PageTexts(pages) == texts + [t];
      if |init| == 0 {
        assert PageTexts(pages) + [""] == [t, ""];
      } else {
        assert Join(texts + [""], "\n") == Join(texts, "\n") + "\n" by { JoinSnoc(texts, "", "\n"); }
        assert Join(texts + [t], "\n") == Join(texts, "\n") + "\n" + t by { JoinSnoc(texts, t, "\n"); }
        assert Join((texts + [t]) + [""], "\n") == Join(texts + [t], "\n") + "\n" by {
          JoinSnoc(texts + [t], "", "\n");
        }
        var joined := Join(texts, "\n");
        assert ExtractText(pages) == (joined + "\n") + t + "\n";
        assert (joined + "\n" + t) + "\n" == (joined + "\n") + t + "\n";
      }
    }
  }

  /** Each page contributes at least one line feed. */
  lemma {:induction false} ExtractTextLineFeeds(pages: seq<seq<string>>)
    ensures Count(ExtractText(pages), '\n') >= |pages|
    decreases |pages|
  {
    if |pages| > 0 {
      var init := pages[..|pages| - 1];
      ExtractTextLineFeeds(init);
      CountAppend(ExtractText(init) + PageText(pages[|pages| - 1]), "\n", '\n');
      CountAppend(ExtractText(init), PageText(pages[|pages| - 1]), '\n');
    }
  }

  /** When no text item holds a line feed, splitting the extracted text at
      line feeds recovers every page's text, followed by one empty tail. */
  lemma ExtractTextSplitsIntoPages(pages: seq<seq<string>>)
    requires forall p, k :: 0 <= p < |pages| && 0 <= k < |pages[p]| ==> '\n' !in pages[p][k]
    ensures Split(ExtractText(pages), '\n') == PageTexts(pages) + [""]
  {
    ExtractTextIsJoin(pages);
    var parts := PageTexts(pages) + [""];
    forall i | 0 <= i < |pages|
      ensures '\n' !in parts[i]
    {
      JoinAvoids(pages[i], " ", '\n');
    }
    SplitJoin(parts, '\n');
  }

  /** A three-page document with one item per page. */
  lemma ThreePageDocument()
    ensures ExtractText([["Alpha"], ["Beta"], ["Gamma"]]) == "Alpha\nBeta\nGamma\n"
  {
    var pages := [["Alpha"], ["Beta"], ["Gamma"]];
    assert pages[..2] == [["Alpha"], ["Beta"]];
    assert pages[..2][..1] == [["Alpha"]];
    assert pages[..2][..1][..0] == [];
  }

  // ---------------------------------------------------------------------
  // Controller state

  /** The resolution of one call to the synthesis service. */
  datatype SynthesisOutcome = Synthesized(profile: UserProfile) | SynthesisFailed

  /** The resolution of one file read: a PDF's per-page text items, the
      content of a text file, or an error from either path. */
  datatype FileOutcome = PdfRead(pages: seq<seq<string>>) | TextRead(content: string) | ReadFailed

  /** `crashed` records that rendering threw: nothing in the component
      tree catches the error, so the whole application is unmounted. */
  datatype AppState = AppState(
    view: ViewState,
    profile: Option<UserProfile>,
    input: string,
    loading: bool,
    parsing: bool,
    crashed: bool)

  /** The state the application starts in. */
  const Initial := AppState(Landing, None, "", false, false, false)

  /** What can happen to the controller: a click on one of its controls,
      an edit of the text area, or the completion of a pending operation. */
  datatype Event =
    | ClickLogo
    | ClickLaunchBuilder
    | ClickGetStarted
    | ClickFullPortfolio
    | ClickBack
    | EditInput(text: string)
    | ClickGenerate
    | SynthesisSettled(outcome: SynthesisOutcome)
    | FilePicked
    | FileSettled(result: FileOutcome)

  /** Whether the portfolio page renders for `profile`: it groups the
      skills by category while rendering, and that grouping throws for a
      category named after an inherited `Object.prototype` property. */
  predicate PortfolioRenders(profile: UserProfile) {
    !PortfolioPage.HasInheritedCategory(profile.skills)
  }

  /** The page renders exactly when grouping its skills succeeds. */
  lemma RendersIffGrouped(profile: UserProfile)
    ensures PortfolioRenders(profile) <==> PortfolioPage.SkillsByCategory(profile.skills).Some?
  {
  }

  /** The portfolio page replaces the whole layout, navigation included. */
  predicate PortfolioShown(s: AppState) {
    !s.crashed && s.view == Portfolio && s.profile.Some?
  }

  /** The navigation bar (logo and "Launch Builder") and main area. */
  predicate NavShown(s: AppState) {
    !s.crashed && !PortfolioShown(s)
  }

  predicate LandingShown(s: AppState) {
    NavShown(s) && s.view == Landing
  }

  /** The text area, the upload control and the Generate button. */
  predicate UploadShown(s: AppState) {
    NavShown(s) && s.view == Uploading
  }

  predicate DashboardShown(s: AppState) {
    NavShown(s) && s.view == Dashboard && s.profile.Some?
  }

  /** Whether the Generate button accepts clicks. */
  function GenerateEnabled(s: AppState): (b: bool)
    ensures b <==> !s.loading && !s.parsing && !AllSpace(s.input)
  {
    !(s.loading || s.parsing || Trim(s.input) == "")
  }

  /** `handleSynthesize` up to the service call: blank input returns at
      once, otherwise the busy flag goes up and the call is pending. */
  function HandleSynthesize(s: AppState): (r: AppState)
    ensures AllSpace(s.input) ==> r == s
    ensures !AllSpace(s.input) ==> r == s.(loading := true)
  {
    if Trim(s.input) == "" then s else s.(loading := true)
  }

  /** The rest of `handleSynthesize` once the service answers: a profile
      replaces the old one and opens the dashboard, a failure only lowers
      the busy flag. */
  function SettleSynthesis(s: AppState, outcome: SynthesisOutcome): (r: AppState)
    ensures !r.loading && r.input == s.input && r.parsing == s.parsing
    ensures outcome.Synthesized? ==> r.profile == Some(outcome.profile) && r.view == Dashboard
    ensures outcome.SynthesisFailed? ==> r.view == s.view && r.profile == s.profile
  {
    match outcome
    case Synthesized(p) => s.(profile := Some(p), view := Dashboard, loading := false)
    case SynthesisFailed => s.(loading := false)
  }

  /** `handleFileUpload` once the read finishes: a PDF's assembled text or
      a non-empty text file replaces the buffer wholesale; an error or an
      empty text file leaves it as it was. */
  function SettleFileRead(s: AppState, result: FileOutcome): (r: AppState)
    ensures !r.parsing && r.view == s.view && r.profile == s.profile && r.loading == s.loading
    ensures result.PdfRead? ==> r.input == ExtractText(result.pages)
    ensures result.TextRead? && result.content != "" ==> r.input == result.content
    ensures result.ReadFailed? || result == TextRead("") ==> r.input == s.input
  {
    match result
    case PdfRead(pages) => s.(input := ExtractText(pages), parsing := false)
    case TextRead(content) => s.(input := if content != "" then content else s.input, parsing := false)
    case ReadFailed => s.(parsing := false)
  }

  /** One event. A click on a control that is not on screen, or on a
      disabled Generate button, changes nothing; a completion arrives only
      while its operation is pending. Opening the portfolio for a profile
      it cannot render crashes the application, and after that no event
      has any effect. */
  function Step(s: AppState, e: Event): (r: AppState)
    ensures r.profile == s.profile || (e.SynthesisSettled? && e.outcome.Synthesized? && r.profile == Some(e.outcome.profile))
    ensures s.profile.Some? ==> r.profile.Some?
    ensures r.view != s.view ==> e.ClickLogo? || e.ClickLaunchBuilder? || e.ClickGetStarted? || e.ClickFullPortfolio? || e.ClickBack? || e.SynthesisSettled?
    ensures r.input != s.input ==> e.EditInput? || e.FileSettled?
    ensures s.crashed ==> r == s
    ensures r.crashed != s.crashed ==>
      e == ClickFullPortfolio && s.view == Dashboard && s.profile.Some? && !PortfolioRenders(s.profile.value)
  {
    if s.crashed then s
    else
    match e
    case ClickLogo => if NavShown(s) then s.(view := Landing) else s
    case ClickLaunchBuilder => if NavShown(s) then s.(view := Uploading) else s
    case ClickGetStarted => if LandingShown(s) then s.(view := Uploading) else s
    case ClickFullPortfolio =>
      if !DashboardShown(s) then s
      else if PortfolioRenders(s.profile.value) then s.(view := Portfolio)
      else s.(view := Portfolio, crashed := true)
    case ClickBack => if PortfolioShown(s) then s.(view := Dashboard) else s
    case EditInput(text) => if UploadShown(s) then s.(input := text) else s
    case ClickGenerate => if UploadShown(s) && GenerateEnabled(s) then HandleSynthesize(s) else s
    case SynthesisSettled(outcome) => if s.loading then SettleSynthesis(s, outcome) else s
    case FilePicked => if UploadShown(s) then s.(parsing := true) else s
    case FileSettled(result) => if s.parsing then SettleFileRead(s, result) else s
  }

  /** The state after a sequence of events. */
  function Run(s: AppState, events: seq<Event>): (r: AppState)
    decreases |events|
  {
    if |events| == 0 then s else Run(Step(s, events[0]), events[1..])
  }

  /** The facts every reachable state keeps: the dashboard and portfolio
      screens have a profile to show, a synthesis is only pending on the
      landing or upload screen, and the portfolio view holds a profile it
      can render unless opening it crashed the application. */
  predicate Invariant(s: AppState) {
    && (s.view == Dashboard || s.view == Portfolio ==> s.profile.Some?)
    && (s.loading ==> s.view == Landing || s.view == Uploading)
    && (s.view == Portfolio && s.profile.Some? ==> (PortfolioRenders(s.profile.value) <==> !s.crashed))
    && (s.crashed ==> s.view == Portfolio)
  }

  lemma InitialInvariant()
    ensures Invariant(Initial)
    ensures Initial.view == Landing && Initial.profile == None
  {
  }

  lemma StepInvariant(s: AppState, e: Event)
    requires Invariant(s)
    ensures Invariant(Step(s, e))
  {
  }

  /** Every state reachable from the initial one satisfies the invariant;
      in particular the dashboard and portfolio are only ever shown with a
      profile. */
  lemma {:induction false} RunInvariant(s: AppState, events: seq<Event>)
    requires Invariant(s)
    ensures Invariant(Run(s, events))
    ensures var r := Run(s, events); r.view == Dashboard || r.view == Portfolio ==> r.profile.Some?
    decreases |events|
  {
    if |events| > 0 {
      StepInvariant(s, events[0]);
      RunInvariant(Step(s, events[0]), events[1..]);
    }
  }

  lemma ReachableInvariant(events: seq<Event>)
    ensures Invariant(Run(Initial, events))
  {
    RunInvariant(Initial, events);
  }

  /** Once a profile is held, no sequence of events clears it. */
  lemma {:induction false} RunKeepsProfile(s: AppState, events: seq<Event>)
    requires s.profile.Some?
    ensures Run(s, events).profile.Some?
    decreases |events|
  {
    if |events| > 0 {
      RunKeepsProfile(Step(s, events[0]), events[1..]);
    }
  }

  /** Synthesis with blank input is a no-op: view, profile, buffer and
      flags all stay as they were. */
  lemma BlankInputIgnored(s: AppState)
    requires UploadShown(s) && AllSpace(s.input)
    ensures Step(s, ClickGenerate) == s
  {
  }

  /** The navigation controls change the view and nothing else, except
      that opening a portfolio that cannot render also crashes the
      application. */
  lemma NavigationOnlyChangesView(s: AppState, e: Event)
    requires e.ClickLogo? || e.ClickLaunchBuilder? || e.ClickGetStarted? || e.ClickFullPortfolio? || e.ClickBack?
    ensures var r := Step(s, e);
      r == s.(view := r.view) || (e == ClickFullPortfolio && r == s.(view := Portfolio, crashed := true))
  {
  }

  /** From the portfolio page the only way out is Back, to the dashboard. */
  lemma PortfolioOnlyBack(s: AppState, e: Event)
    requires Invariant(s) && s.view == Portfolio
    ensures Step(s, e).view == Portfolio || (e == ClickBack && Step(s, e).view == Dashboard)
  {
  }

  /** Opening the portfolio and going back restores the dashboard state
      exactly, profile included, when the portfolio renders; when it
      cannot, the application has crashed on the portfolio view and Back
      is never shown. */
  lemma PortfolioRoundTrip(s: AppState)
    requires DashboardShown(s)
    ensures PortfolioRenders(s.profile.value) ==> Run(s, [ClickFullPortfolio, ClickBack]) == s
    ensures !PortfolioRenders(s.profile.value) ==>
      Run(s, [ClickFullPortfolio, ClickBack]) == s.(view := Portfolio, crashed := true)
  {
    var shown := Step(s, ClickFullPortfolio);
    assert [ClickFullPortfolio, ClickBack][1..] == [ClickBack];
    assert Run(s, [ClickFullPortfolio, ClickBack]) == Step(shown, ClickBack);
  }

  /** After a crash the application stays as it was, whatever happens. */
  lemma {:induction false} CrashIsFinal(s: AppState, events: seq<Event>)
    requires s.crashed
    ensures Run(s, events) == s
    decreases |events|
  {
    if |events| > 0 {
      CrashIsFinal(Step(s, events[0]), events[1..]);
    }
  }

  /** From the initial state the application crashes only on the
      portfolio view of a profile whose skills cannot be grouped, given
      that every synthesis result is a complete profile. */
  lemma ReachableCrash(events: seq<Event>)
    ensures var r := Run(Initial, events);
      r.crashed ==> r.view == Portfolio && r.profile.Some? && !PortfolioRenders(r.profile.value)
  {
    ReachableInvariant(events);
  }

  /** A pending synthesis that succeeds installs its profile and opens the
      dashboard; one that fails leaves view, profile and buffer alone. */
  lemma SynthesisOutcomes(s: AppState, outcome: SynthesisOutcome)
    requires Invariant(s) && s.loading
    ensures outcome.Synthesized? ==>
      Step(s, SynthesisSettled(outcome)).profile == Some(outcome.profile) &&
      Step(s, SynthesisSettled(outcome)).view == Dashboard
    ensures outcome.SynthesisFailed? ==>
      Step(s, SynthesisSettled(outcome)) == s.(loading := false)
  {
  }
}
