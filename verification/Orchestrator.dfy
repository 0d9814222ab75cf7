/** The search orchestrator: a generator of progress events with many early exits, and the fitting of
    documents into the model's input. */
module Orchestrator {

  datatype Stage = Accepted | Expanded | Searched | Ranked | PageReady | Synthesized | Validated | Answered | Failed

  datatype Reason = SearchDown | TimedOut | BudgetExhausted | LlmDown

  datatype Event =
    | Progress(stage: Stage)
    | Ready(doc: Doc)
    | Checked(valid: nat, rejected: nat)
    | Answer(valid: nat, rejected: nat, documents: nat, degraded: bool, ungrounded: bool, cost: real)
    | Error(reason: Reason, retriable: bool)

  function StageOf(e: Event): Stage {
    match e
    case Progress(stage) => stage
    case Ready(_) => PageReady
    case Checked(_, _) => Validated
    case Answer(_, _, _, _, _, _) => Answered
    case Error(_, _) => Failed
  }

  /** One telemetry record. */
  datatype Record = Record(finalStage: Stage, degraded: bool, ungrounded: bool, cost: real,
                           pagesOk: nat, pagesFailed: nat, valid: nat, rejected: nat)

  // ---------- what the collaborators answer ----------

  datatype Doc = Doc(ok: bool, markdown: string)

  /** The search fails or raises, the ranking of its results raises, or so many results are ranked. */
  datatype SearchReply = SearchUnavailable | SearchRaises | RankRaises | Found(ranked: nat)

  datatype CrawlReply = CrawlTimeout | CrawlRaises | Crawled(docs: seq<Doc>)

  /** The reply text, parsed: malformed citations raise; else counts of valid and rejected ones. */
  datatype Parsed = ParseRaises | Parsed(valid: nat, rejected: nat)

  datatype LlmReply =
    | LlmTimeout | LlmBudget | LlmUnavailable | LlmRaises
    | Completed(fallbackUsed: bool, modelDrift: bool, costAuthoritative: bool, cutShort: bool, cost: real,
                parsed: Parsed)

  /** The model answers what it is asked: the texts that fit into its input. */
  datatype Env = Env(search: SearchReply, timeToCrawl: bool, crawl: CrawlReply, timeToAsk: bool,
                     llm: seq<string> -> LlmReply, tokens: seq<string> -> nat)

  datatype Config = Config(crawlPagesMax: nat, llmInputTokens: nat)

  /** Every ranked row kept is crawled: `gather` returns one document for each. */
  predicate Coherent(env: Env, c: Config) {
    env.search.Found? && env.crawl.Crawled? ==>
      |env.crawl.docs| == if env.search.ranked <= c.crawlPagesMax then env.search.ranked else c.crawlPagesMax
  }

  // ---------- fitting documents into the input ----------

  datatype Fit = Fits(texts: seq<string>) | TooLarge

  function Markdowns(docs: seq<Doc>): seq<string> {
    seq(|docs|, i requires 0 <= i < |docs| => docs[i].markdown)
  }

  /** `markdown[: max(1, int(len(markdown) / d))]` */
  function Cut(markdown: string, d: nat): (r: string)
    requires d > 0
    ensures r <= markdown
  {
    var n := if |markdown| / d >= 1 then |markdown| / d else 1;
    if n <= |markdown| then markdown[..n] else markdown
  }

  /** `_fit_messages`, up to the assembly of the prompt, whose size is `tokens`. */
  method FitMessages(tokens: seq<string> -> nat, texts: seq<string>, cap: nat) returns (fit: Fit)
    ensures fit == Fitted(tokens, texts, cap)
  {
    var working := texts;
    while working != []
      invariant working <= texts
      invariant forall n | |working| < n <= |texts| :: tokens(texts[..n]) > cap
      invariant working == [] ==> texts == []
      decreases |working|
    {
      assert working == texts[..|working|];
      if tokens(working) <= cap {
        return Fits(working);
      }
      if |working| > 1 {
        working := working[..|working| - 1];
      } else {
        assert working == texts[..1] && working[0] == texts[0];
        var half := [Cut(working[0], 2)];
        if tokens(half) <= cap {
          return Fits(half);
        }
        var quarter := [Cut(working[0], 4)];
        if tokens(quarter) <= cap {
          return Fits(quarter);
        }
        return TooLarge;
      }
    }
    return Fits([]);
  }

  /** The longest non-empty prefix that fits, or 0. */
  function Longest(tokens: seq<string> -> nat, texts: seq<string>, cap: nat): (n: nat)
    ensures n <= |texts|
    ensures n > 0 ==> tokens(texts[..n]) <= cap
    ensures forall m | n < m <= |texts| :: tokens(texts[..m]) > cap
  {
    LongestUpTo(tokens, texts, cap, |texts|)
  }

  function LongestUpTo(tokens: seq<string> -> nat, texts: seq<string>, cap: nat, k: nat): (n: nat)
    requires k <= |texts|
    ensures n <= k
    ensures n > 0 ==> tokens(texts[..n]) <= cap
    ensures forall m | n < m <= k :: tokens(texts[..m]) > cap
  {
    if k == 0 || tokens(texts[..k]) <= cap then k else LongestUpTo(tokens, texts, cap, k - 1)
  }

  /** The longest prefix that fits; failing that, the first document cut to a half or a quarter;
      failing that, nothing. No documents always fit. */
  function Fitted(tokens: seq<string> -> nat, texts: seq<string>, cap: nat): Fit {
    var n := Longest(tokens, texts, cap);
    if texts == [] then Fits([])
    else if n > 0 then Fits(texts[..n])
    else if tokens([Cut(texts[0], 2)]) <= cap then Fits([Cut(texts[0], 2)])
    else if tokens([Cut(texts[0], 4)]) <= cap then Fits([Cut(texts[0], 4)])
    else TooLarge
  }

  /** The first `1 / d` of a text, at least one character of it. */
  ghost predicate IsShare(part: string, whole: string, d: nat)
    requires d > 0
  {
    && part <= whole
    && (|whole| >= d ==> |part| * d <= |whole| < (|part| + 1) * d)
    && (|whole| < d ==> |part| == if whole == "" then 0 else 1)
  }

  lemma CutIsShare(whole: string)
    ensures IsShare(Cut(whole, 2), whole, 2) && IsShare(Cut(whole, 4), whole, 4)
  {
    assert |whole| / 2 * 2 <= |whole| < (|whole| / 2 + 1) * 2;
    assert |whole| / 4 * 4 <= |whole| < (|whole| / 4 + 1) * 4;
  }

  /** What the model is asked with fits, and no more of the pages would: more pages do not fit, and the
      first one is cut only if it does not fit by itself, to a quarter only if a half does not. */
  lemma NothingMoreFits(tokens: seq<string> -> nat, texts: seq<string>, cap: nat)
    requires texts != []
    ensures var fit := Fitted(tokens, texts, cap);
            && (fit.Fits? ==> tokens(fit.texts) <= cap && fit.texts != [])
            && (fit.Fits? && fit.texts <= texts ==>
                  forall m | |fit.texts| < m <= |texts| :: tokens(texts[..m]) > cap)
            && (fit.TooLarge? || !(fit.texts <= texts) ==> forall m | 0 < m <= |texts| :: tokens(texts[..m]) > cap)
            && (fit.Fits? && !(fit.texts <= texts) ==>
                  && |fit.texts| == 1
                  && (IsShare(fit.texts[0], texts[0], 2)
                      || (IsShare(fit.texts[0], texts[0], 4) && tokens([Cut(texts[0], 2)]) > cap)))
            && (fit.TooLarge? ==> tokens([Cut(texts[0], 2)]) > cap && tokens([Cut(texts[0], 4)]) > cap)
  {
    CutIsShare(texts[0]);
    hide Cut, IsShare;
    var n := Longest(tokens, texts, cap);
    if n == 0 {
      assert tokens(texts[..1]) > cap && texts[..1] == [texts[0]];
      assert forall part | [part] <= texts :: [part] == texts[..1];
    }
  }

  // ---------- the generator ----------

  datatype Trace = Trace(events: seq<Event>, records: seq<Record>, raised: bool)

  function OkDocs(docs: seq<Doc>): (r: seq<Doc>)
    ensures |r| <= |docs|
  {
    if docs == [] then []
    else OkDocs(docs[..|docs| - 1]) + if docs[|docs| - 1].ok then [docs[|docs| - 1]] else []
  }

  /** `search`, consumed to its end; `raised` when an exception escapes. */
  method Search(env: Env, c: Config) returns (t: Trace)
    requires Coherent(env, c)
    ensures Recorded(t, c) && Reports(env, c, t)
    ensures Stages(t.events) == StagesOf(env, c) && t.raised == Raised(env, c)
  {
    hide Fitted, OkDocs, Stages, ReadyDocs;
    var events := [Progress(Accepted), Progress(Expanded)];
    StagesOfOpening();
    NothingReadyYet();
    if env.search.SearchRaises? {
      return Trace(events, [], true);
    }
    if env.search.SearchUnavailable? {
      EventsSnoc(events, Error(SearchDown, true));
      return Trace(events + [Error(SearchDown, true)], [Record(Failed, false, false, 0.0, 0, 0, 0, 0)], false);
    }
    events := events + [Progress(Searched)];
    if env.search.RankRaises? {
      return Trace(events, [], true);
    }
    events := events + [Progress(Ranked)];
    assert events == Opening();
    if !env.timeToCrawl || env.crawl.CrawlTimeout? {
      EventsSnoc(events, Error(TimedOut, true));
      return Trace(events + [Error(TimedOut, true)], [Record(Failed, false, false, 0.0, 0, 0, 0, 0)], false);
    }
    if env.crawl.CrawlRaises? {
      return Trace(events, [], true);
    }
    t := SearchCrawled(env, c, events);
  }

  /** The rest of `search`, once the pages are crawled. */
  method SearchCrawled(env: Env, c: Config, opening: seq<Event>) returns (t: Trace)
    requires Coherent(env, c) && PagesCrawled(env)
    requires opening == Opening()
    ensures Recorded(t, c) && Reports(env, c, t)
    ensures Stages(t.events) == StagesOf(env, c) && t.raised == Raised(env, c)
  {
    hide Fitted, OkDocs, Stages, ReadyDocs;
    var events := opening;
    var docs := env.crawl.docs;
    var okDocs := OkDocs(docs);
    var pagesFailed := |docs| - |okDocs|;
    for i := 0 to |okDocs|
      invariant events == Opening() + Pages(okDocs[..i])
    {
      events := events + [Ready(okDocs[i])];
      assert Pages(okDocs[..i + 1]) == Pages(okDocs[..i]) + [Ready(okDocs[i])];
    }
    assert okDocs[..|okDocs|] == okDocs;
    StagesOfPages(okDocs);
    ReadyDocsOfPages(okDocs);
    if okDocs == [] {
      assert events == Opening();
      StagesOfOpening();
      EventsSnoc(events, Answer(0, 0, 0, false, true, 0.0));
      return Trace(events + [Answer(0, 0, 0, false, true, 0.0)],
                   [Record(Answered, false, true, 0.0, 0, pagesFailed, 0, 0)], false);
    }
    var fit := FitMessages(env.tokens, Markdowns(okDocs), c.llmInputTokens);
    if fit.TooLarge? {
      assert OPENING + PageStages(|okDocs|) + [] == OPENING + PageStages(|okDocs|);
      return Trace(events, [], true);
    }
    t := Synthesize(env, c, fit.texts, events, |okDocs|, pagesFailed);
  }

  /** The last part of `search`: ask the model and validate its citations. */
  method Synthesize(env: Env, c: Config, texts: seq<string>, ready: seq<Event>, pagesOk: nat, pagesFailed: nat)
    returns (t: Trace)
    requires pagesOk + pagesFailed <= c.crawlPagesMax && ready != [] && !Terminal(StageOf(ready[|ready| - 1]))
    ensures Recorded(t, c)
    ensures Stages(t.events) == Stages(ready) + Ending(env, env.llm(texts))
    ensures ReadyDocs(t.events) == ReadyDocs(ready)
    ensures t.raised <==> env.timeToAsk && ReplyRaises(env.llm(texts))
    ensures !t.raised ==> Concludes(t, env, env.llm(texts), pagesOk, pagesFailed)
  {
    hide Stages, ReadyDocs;
    var events, degraded, ungrounded := ready, false, false;
    assert Stages(ready) + [] == Stages(ready);
    if !env.timeToAsk {
      EventsSnoc(events, Error(TimedOut, true));
      return Trace(events + [Error(TimedOut, true)],
                   [Record(Failed, degraded, ungrounded, 0.0, pagesOk, pagesFailed, 0, 0)], false);
    }
    match env.llm(texts) {
      case LlmTimeout =>
        EventsSnoc(events, Error(TimedOut, true));
        return Trace(events + [Error(TimedOut, true)],
                     [Record(Failed, degraded, ungrounded, 0.0, pagesOk, pagesFailed, 0, 0)], false);
      case LlmBudget =>
        EventsSnoc(events, Error(BudgetExhausted, false));
        return Trace(events + [Error(BudgetExhausted, false)],
                     [Record(Failed, degraded, ungrounded, 0.0, pagesOk, pagesFailed, 0, 0)], false);
      case LlmUnavailable =>
        EventsSnoc(events, Error(LlmDown, true));
        return Trace(events + [Error(LlmDown, true)],
                     [Record(Failed, degraded, ungrounded, 0.0, pagesOk, pagesFailed, 0, 0)], false);
      case LlmRaises =>
        return Trace(events, [], true);
      case Completed(fallbackUsed, modelDrift, costAuthoritative, cutShort, cost, parsed) =>
        degraded := fallbackUsed || modelDrift || !costAuthoritative || cutShort;
        if parsed.ParseRaises? {
          return Trace(events, [], true);
        }
        EventsSnoc(events, Progress(Synthesized));
        events := events + [Progress(Synthesized)];
        EventsSnoc(events, Checked(parsed.valid, parsed.rejected));
        events := events + [Checked(parsed.valid, parsed.rejected)];
        if parsed.valid == 0 {
          ungrounded := true;
        }
        var answer := Answer(parsed.valid, parsed.rejected, pagesOk, degraded, ungrounded, cost);
        EventsSnoc(events, answer);
        assert Stages(ready) + [Synthesized] + [Validated] + [Answered]
            == Stages(ready) + [Synthesized, Validated, Answered];
        return Trace(events + [answer],
                     [Record(Answered, degraded, ungrounded, cost, pagesOk, pagesFailed,
                             parsed.valid, parsed.rejected)],
                     false);
    }
  }

  function Opening(): seq<Event> { [Progress(Accepted), Progress(Expanded), Progress(Searched), Progress(Ranked)] }

  function Pages(docs: seq<Doc>): seq<Event> { seq(|docs|, i requires 0 <= i < |docs| => Ready(docs[i])) }

  /** The pages announced, in order. */
  function ReadyDocs(es: seq<Event>): seq<Doc> {
    if es == [] then []
    else ReadyDocs(es[..|es| - 1]) + if es[|es| - 1].Ready? then [es[|es| - 1].doc] else []
  }

  function Stages(es: seq<Event>): seq<Stage> {
    seq(|es|, i requires 0 <= i < |es| => StageOf(es[i]))
  }

  lemma StagesOfPages(docs: seq<Doc>)
    ensures Stages(Opening() + Pages(docs)) == OPENING + PageStages(|docs|)
  {
  }

  lemma StagesOfOpening()
    ensures Stages([Progress(Accepted), Progress(Expanded)]) == [Accepted, Expanded]
    ensures Stages([Progress(Accepted), Progress(Expanded)] + [Progress(Searched)]) == [Accepted, Expanded, Searched]
    ensures Stages(Opening()) == OPENING
  {
  }

  lemma StagesSnoc(es: seq<Event>, e: Event)
    ensures Stages(es + [e]) == Stages(es) + [StageOf(e)]
  {
  }

  const OPENING := [Accepted, Expanded, Searched, Ranked]

  function PageStages(n: nat): seq<Stage> { seq(n, _ => PageReady) }

  /** How a run ends: the stages it goes through, by what its collaborators answer. */
  function StagesOf(env: Env, c: Config): seq<Stage>
    requires Coherent(env, c)
  {
    match env.search
    case SearchRaises => [Accepted, Expanded]
    case SearchUnavailable => [Accepted, Expanded, Failed]
    case RankRaises => [Accepted, Expanded, Searched]
    case Found(_) =>
      if !env.timeToCrawl then OPENING + [Failed]
      else
        match env.crawl
        case CrawlTimeout => OPENING + [Failed]
        case CrawlRaises => OPENING
        case Crawled(docs) =>
          var ok := OkDocs(docs);
          if ok == [] then OPENING + [Answered]
          else
            OPENING + PageStages(|ok|)
            + match Fitted(env.tokens, Markdowns(ok), c.llmInputTokens)
              case TooLarge => []
              case Fits(texts) => Ending(env, env.llm(texts))
  }

  /** The stages after the last page. */
  function Ending(env: Env, reply: LlmReply): seq<Stage> {
    if !env.timeToAsk then [Failed]
    else
      match reply
      case LlmRaises => []
      case Completed(_, _, _, _, _, parsed) =>
        if parsed.ParseRaises? then [] else [Synthesized, Validated, Answered]
      case _ => [Failed]
  }

  predicate ReplyRaises(reply: LlmReply) { reply.LlmRaises? || (reply.Completed? && reply.parsed.ParseRaises?) }

  predicate PagesCrawled(env: Env) { env.search.Found? && env.timeToCrawl && env.crawl.Crawled? }

  /** An exception escapes: the search, the ranking or the crawl raises something unforeseen, the documents do not
      fit, or the model's reply raises or cannot be parsed. */
  predicate Raised(env: Env, c: Config)
    requires Coherent(env, c)
  {
    match env.search
    case SearchRaises => true
    case SearchUnavailable => false
    case RankRaises => true
    case Found(_) =>
      && env.timeToCrawl && !env.crawl.CrawlTimeout?
      && (env.crawl.CrawlRaises?
          || var ok := OkDocs(env.crawl.docs);
             ok != []
             && match Fitted(env.tokens, Markdowns(ok), c.llmInputTokens)
                case TooLarge => true
                case Fits(texts) => env.timeToAsk && ReplyRaises(env.llm(texts)))
  }

  predicate Terminal(s: Stage) { s == Answered || s == Failed }

  /** A run that raises leaves no record and no terminal event; any other ends in a terminal event
      with exactly one record, which agrees with it, and marks an answer ungrounded iff it has no
      citations. */
  predicate Recorded(t: Trace, c: Config) {
    && t.events != []
    && var last := t.events[|t.events| - 1];
    && (t.raised ==> t.records == [] && !Terminal(StageOf(last)))
    && (!t.raised ==>
          && Terminal(StageOf(last)) && |t.records| == 1
          && t.records[0].finalStage == StageOf(last)
          && t.records[0].pagesOk + t.records[0].pagesFailed <= c.crawlPagesMax
          && (last.Error? ==>
                t.records[0] == Record(Failed, false, false, 0.0, t.records[0].pagesOk, t.records[0].pagesFailed, 0, 0))
          && (last.Answer? ==>
                && (last.ungrounded <==> last.valid == 0)
                && t.records[0].ungrounded == last.ungrounded && t.records[0].degraded == last.degraded
                && t.records[0].cost == last.cost && t.records[0].pagesOk == last.documents
                && t.records[0].valid == last.valid && t.records[0].rejected == last.rejected))
  }

  /** What the last event says of the model's reply: each failure its own reason, and a completion its
      own counts, cost and flags. */
  ghost predicate Concludes(t: Trace, env: Env, reply: LlmReply, pagesOk: nat, pagesFailed: nat)
    requires |t.records| == 1 && t.events != []
  {
    var last := t.events[|t.events| - 1];
    && t.records[0].pagesOk == pagesOk && t.records[0].pagesFailed == pagesFailed
    && (!env.timeToAsk ==> last == Error(TimedOut, true))
    && (env.timeToAsk ==>
          && (reply.LlmTimeout? ==> last == Error(TimedOut, true))
          && (reply.LlmBudget? ==> last == Error(BudgetExhausted, false))
          && (reply.LlmUnavailable? ==> last == Error(LlmDown, true))
          && (reply.Completed? ==>
                && reply.parsed.Parsed? && last.Answer?
                && last.valid == reply.parsed.valid && last.rejected == reply.parsed.rejected
                && last.documents == pagesOk && last.cost == reply.cost
                && (last.ungrounded <==> reply.parsed.valid == 0)
                && (last.degraded <==>
                      reply.fallbackUsed || reply.modelDrift || !reply.costAuthoritative || reply.cutShort)
                && |t.events| >= 2
                && t.events[|t.events| - 2..] == [Checked(reply.parsed.valid, reply.parsed.rejected), last]))
  }

  /** What a run reports of its collaborators: the pages that are ok, in their order, and at the end what
      went wrong or what was answered. The model is asked with the texts that fit. */
  ghost predicate Reports(env: Env, c: Config, t: Trace)
    requires t.events != [] && (!t.raised ==> |t.records| == 1)
  {
    var last := t.events[|t.events| - 1];
    && ReadyDocs(t.events) == (if PagesCrawled(env) then OkDocs(env.crawl.docs) else [])
    && (!t.raised ==>
          && (env.search.SearchUnavailable? ==> last == Error(SearchDown, true))
          && (env.search.Found? && (!env.timeToCrawl || env.crawl.CrawlTimeout?) ==> last == Error(TimedOut, true))
          && (!PagesCrawled(env) ==> t.records[0].pagesOk == t.records[0].pagesFailed == 0)
          && (PagesCrawled(env) ==>
                var ok := OkDocs(env.crawl.docs);
                if ok == [] then
                  && last == Answer(0, 0, 0, false, true, 0.0)
                  && t.records[0].pagesOk == 0 && t.records[0].pagesFailed == |env.crawl.docs|
                else
                  var fit := Fitted(env.tokens, Markdowns(ok), c.llmInputTokens);
                  fit.Fits? && Concludes(t, env, env.llm(fit.texts), |ok|, |env.crawl.docs| - |ok|)))
  }

  /** The pages that are ok: all of them, no others, in their order. */
  lemma {:induction false} OkDocsConcat(a: seq<Doc>, b: seq<Doc>)
    ensures OkDocs(a + b) == OkDocs(a) + OkDocs(b)
    ensures |a| == 1 ==> OkDocs(a) == if a[0].ok then a else []
  {
    if b == [] {
      assert a + b == a && OkDocs(a) + [] == OkDocs(a);
      OkDocsOne(a);
    } else {
      var n, d := |b| - 1, b[|b| - 1];
      OkDocsConcat(a, b[..n]);
      assert (a + b)[..|a| + n] == a + b[..n];
      var more := if d.ok then [d] else [];
      assert OkDocs(a + b) == OkDocs(a + b[..n]) + more && OkDocs(b) == OkDocs(b[..n]) + more;
      hide OkDocs;
      assert OkDocs(a) + (OkDocs(b[..n]) + more) == (OkDocs(a) + OkDocs(b[..n])) + more;
    }
  }

  lemma OkDocsOne(a: seq<Doc>)
    ensures |a| == 1 ==> OkDocs(a) == if a[0].ok then a else []
  {
    if |a| == 1 {
      assert a[..0] == [] && [a[0]] == a;
    }
  }

  lemma {:induction false} ReadyDocsOfPages(docs: seq<Doc>)
    ensures ReadyDocs(Opening() + Pages(docs)) == docs
  {
    hide ReadyDocs;
    if docs == [] {
      assert Opening() + Pages(docs) == Opening();
      NothingReadyYet();
    } else {
      var n := |docs| - 1;
      ReadyDocsOfPages(docs[..n]);
      ReadyDocsSnoc(Opening() + Pages(docs[..n]), Ready(docs[n]));
      assert Opening() + Pages(docs) == Opening() + Pages(docs[..n]) + [Ready(docs[n])];
    }
  }

  lemma NothingReadyYet()
    ensures ReadyDocs([Progress(Accepted), Progress(Expanded)]) == []
    ensures ReadyDocs([Progress(Accepted), Progress(Expanded)] + [Progress(Searched)]) == []
    ensures ReadyDocs(Opening()) == []
  {
    var two := [Progress(Accepted), Progress(Expanded)];
    ReadyDocsSnoc([], Progress(Accepted));
    ReadyDocsSnoc([Progress(Accepted)], Progress(Expanded));
    ReadyDocsSnoc(two, Progress(Searched));
    ReadyDocsSnoc(two + [Progress(Searched)], Progress(Ranked));
    assert [] + [Progress(Accepted)] == [Progress(Accepted)] && [Progress(Accepted)] + [Progress(Expanded)] == two;
    assert two + [Progress(Searched)] + [Progress(Ranked)] == Opening();
  }

  lemma ReadyDocsSnoc(es: seq<Event>, e: Event)
    ensures ReadyDocs(es + [e]) == ReadyDocs(es) + if e.Ready? then [e.doc] else []
  {
    assert (es + [e])[..|es|] == es;
  }

  lemma EventsSnoc(es: seq<Event>, e: Event)
    ensures Stages(es + [e]) == Stages(es) + [StageOf(e)]
    ensures !e.Ready? ==> ReadyDocs(es + [e]) == ReadyDocs(es)
  {
    StagesSnoc(es, e);
    ReadyDocsSnoc(es, e);
  }

  // ---------- the grammar ----------

  /** accepted expanded (error | searched ranked (error | answer | page_ready+ (error | synthesized
      validated answer))), as an automaton. */
  datatype State = S0 | S1 | S2 | S3 | S4 | InPages(n: nat) | S5 | S6 | End(pages: nat) | Stuck

  function Delta(q: State, s: Stage): State {
    match (q, s)
    case (S0, Accepted) => S1
    case (S1, Expanded) => S2
    case (S2, Failed) => End(0)
    case (S2, Searched) => S3
    case (S3, Ranked) => S4
    case (S4, Failed) => End(0)
    case (S4, Answered) => End(0)
    case (S4, PageReady) => InPages(1)
    case (InPages(n), PageReady) => InPages(n + 1)
    case (InPages(n), Failed) => End(n)
    case (InPages(_), Synthesized) => S5
    case (S5, Validated) => S6
    case (S6, Answered) => End(0)
    case _ => Stuck
  }

  function Reads(w: seq<Stage>): State {
    if w == [] then S0 else Delta(Reads(w[..|w| - 1]), w[|w| - 1])
  }

  function CountPages(w: seq<Stage>): nat {
    if w == [] then 0 else CountPages(w[..|w| - 1]) + if w[|w| - 1] == PageReady then 1 else 0
  }

  predicate Accepts(w: seq<Stage>) { Reads(w).End? }

  lemma ReadsSnoc(w: seq<Stage>, s: Stage)
    ensures Reads(w + [s]) == Delta(Reads(w), s)
    ensures CountPages(w + [s]) == CountPages(w) + if s == PageReady then 1 else 0
  {
    assert (w + [s])[..|w|] == w;
  }

  lemma ReadsOpening()
    ensures Reads([Accepted, Expanded]) == S2 && Reads([Accepted, Expanded, Searched]) == S3 && Reads(OPENING) == S4
    ensures CountPages([Accepted, Expanded]) == 0 && CountPages(OPENING) == 0
  {
    ReadsSnoc([], Accepted);
    ReadsSnoc([Accepted], Expanded);
    ReadsSnoc([Accepted, Expanded], Searched);
    ReadsSnoc([Accepted, Expanded, Searched], Ranked);
    assert OPENING == [Accepted, Expanded, Searched] + [Ranked];
    assert [Accepted, Expanded, Searched] == [Accepted, Expanded] + [Searched];
    assert [Accepted, Expanded] == [Accepted] + [Expanded];
    assert [Accepted] == [] + [Accepted];
  }

  lemma {:induction false} ReadsPages(n: nat)
    ensures Reads(OPENING + PageStages(n)) == if n == 0 then S4 else InPages(n)
    ensures CountPages(OPENING + PageStages(n)) == n
  {
    ReadsOpening();
    if n == 0 {
      assert OPENING + PageStages(0) == OPENING;
    } else {
      ReadsPages(n - 1);
      ReadsSnoc(OPENING + PageStages(n - 1), PageReady);
      assert OPENING + PageStages(n) == (OPENING + PageStages(n - 1)) + [PageReady];
    }
  }

  /** The complete words of the language, by how they end. */
  datatype Shape = NoSearch | NoCrawl | NoPages | PagesThenError(n: nat) | PagesThenAnswer(n: nat)

  predicate Proper(x: Shape) { match x case PagesThenError(n) => n > 0 case PagesThenAnswer(n) => n > 0 case _ => true }

  function Spell(x: Shape): seq<Stage> {
    match x
    case NoSearch => [Accepted, Expanded, Failed]
    case NoCrawl => OPENING + [Failed]
    case NoPages => OPENING + [Answered]
    case PagesThenError(n) => OPENING + PageStages(n) + [Failed]
    case PagesThenAnswer(n) => OPENING + PageStages(n) + [Synthesized, Validated, Answered]
  }

  function PagesIn(x: Shape): nat { match x case PagesThenError(n) => n case PagesThenAnswer(n) => n case _ => 0 }

  lemma AfterPages(w: seq<Stage>, n: nat)
    requires Reads(w) == InPages(n) && CountPages(w) == n
    ensures Accepts(w + [Failed]) && CountPages(w + [Failed]) == n
    ensures Accepts(w + [Synthesized, Validated, Answered]) && CountPages(w + [Synthesized, Validated, Answered]) == n
  {
    hide Reads, CountPages;
    ReadsSnoc(w, Failed);
    ReadsSnoc(w, Synthesized);
    ReadsSnoc(w + [Synthesized], Validated);
    ReadsSnoc(w + [Synthesized] + [Validated], Answered);
    assert w + [Synthesized] + [Validated] + [Answered] == w + [Synthesized, Validated, Answered];
  }

  lemma SpellAccepted(x: Shape)
    requires Proper(x)
    ensures Accepts(Spell(x)) && CountPages(Spell(x)) == PagesIn(x)
  {
    hide Reads, CountPages, PageStages;
    ReadsOpening();
    match x {
      case NoSearch =>
        ReadsSnoc([Accepted, Expanded], Failed);
        assert [Accepted, Expanded] + [Failed] == Spell(x);
      case NoCrawl => ReadsSnoc(OPENING, Failed);
      case NoPages => ReadsSnoc(OPENING, Answered);
      case PagesThenError(n) =>
        ReadsPages(n);
        AfterPages(OPENING + PageStages(n), n);
      case PagesThenAnswer(n) =>
        ReadsPages(n);
        AfterPages(OPENING + PageStages(n), n);
    }
  }

  /** The words that lead to each state. */
  ghost predicate Leads(w: seq<Stage>, q: State) {
    match q
    case S0 => w == []
    case S1 => w == [Accepted]
    case S2 => w == [Accepted, Expanded]
    case S3 => w == [Accepted, Expanded, Searched]
    case S4 => w == OPENING
    case InPages(n) => n > 0 && w == OPENING + PageStages(n)
    case S5 => exists n: nat :: n > 0 && w == OPENING + PageStages(n) + [Synthesized]
    case S6 => exists n: nat :: n > 0 && w == OPENING + PageStages(n) + [Synthesized] + [Validated]
    case End(_) => exists x :: Proper(x) && w == Spell(x)
    case Stuck => true
  }

  lemma PagesSnoc(n: nat)
    ensures PageStages(n) + [PageReady] == PageStages(n + 1) && PageStages(1) == [PageReady]
  {
  }

  lemma LeadsToEnd(w: seq<Stage>, q: State, s: Stage)
    requires Leads(w, q) && Delta(q, s).End?
    ensures Leads(w + [s], Delta(q, s))
  {
    hide PageStages;
    match q {
      case S2 => assert Proper(NoSearch) && w + [s] == Spell(NoSearch);
      case S4 =>
        if s == Failed {
          assert Proper(NoCrawl) && w + [s] == Spell(NoCrawl);
        } else {
          assert Proper(NoPages) && w + [s] == Spell(NoPages);
        }
      case InPages(n) => assert Proper(PagesThenError(n)) && w + [s] == Spell(PagesThenError(n));
      case S6 =>
        var n: nat :| n > 0 && w == OPENING + PageStages(n) + [Synthesized] + [Validated];
        assert Proper(PagesThenAnswer(n)) && w + [s] == Spell(PagesThenAnswer(n));
    }
  }

  lemma LeadsOn(w: seq<Stage>, q: State, s: Stage)
    requires Leads(w, q) && !Delta(q, s).End?
    ensures Leads(w + [s], Delta(q, s))
  {
    hide PageStages;
    match q {
      case S4 => PagesSnoc(0);
      case InPages(n) =>
        PagesSnoc(n);
        assert w + [PageReady] == OPENING + (PageStages(n) + [PageReady]);
      case _ =>
    }
  }

  lemma {:induction false} WordOf(w: seq<Stage>)
    ensures Leads(w, Reads(w))
  {
    hide Leads;
    if w == [] {
      LeadsStart();
    } else {
      var v, s := w[..|w| - 1], w[|w| - 1];
      WordOf(v);
      assert w == v + [s];
      if Delta(Reads(v), s).End? {
        LeadsToEnd(v, Reads(v), s);
      } else {
        LeadsOn(v, Reads(v), s);
      }
    }
  }

  lemma LeadsStart()
    ensures Leads([], S0)
  {
  }

  /** The shape of the word a run spells, unless it raises. */
  lemma RunSpells(env: Env, c: Config) returns (x: Shape)
    requires Coherent(env, c) && !Raised(env, c)
    ensures Proper(x) && StagesOf(env, c) == Spell(x) && PagesIn(x) <= c.crawlPagesMax
  {
    hide Fitted;
    if env.search.SearchUnavailable? {
      x := NoSearch;
    } else if env.timeToCrawl && env.crawl.Crawled? {
      var n := |OkDocs(env.crawl.docs)|;
      if n == 0 {
        x := NoPages;
      } else {
        var texts := Fitted(env.tokens, Markdowns(OkDocs(env.crawl.docs)), c.llmInputTokens).texts;
        x := if env.timeToAsk && env.llm(texts).Completed? then PagesThenAnswer(n) else PagesThenError(n);
      }
    } else {
      x := NoCrawl;
    }
  }

  function GoodDocs(n: nat): seq<Doc> { seq(n, _ => Doc(true, "")) }

  lemma {:induction false} GoodDocsAreOk(n: nat)
    ensures OkDocs(GoodDocs(n)) == GoodDocs(n) && |GoodDocs(n)| == n
  {
    if n > 0 {
      GoodDocsAreOk(n - 1);
      assert GoodDocs(n)[..n - 1] == GoodDocs(n - 1);
    }
  }

  function EnvFor(x: Shape): Env {
    var done := Completed(false, false, true, false, 0.0, Parsed(1, 0));
    var llm: seq<string> -> LlmReply, tokens: seq<string> -> nat := _ => done, _ => 0;
    match x
    case NoSearch => Env(SearchUnavailable, true, CrawlTimeout, true, llm, tokens)
    case NoCrawl => Env(Found(0), false, Crawled([]), true, llm, tokens)
    case NoPages => Env(Found(0), true, Crawled([]), true, llm, tokens)
    case PagesThenError(n) => Env(Found(n), true, Crawled(GoodDocs(n)), false, llm, tokens)
    case PagesThenAnswer(n) => Env(Found(n), true, Crawled(GoodDocs(n)), true, llm, tokens)
  }

  lemma FreeTokensFit(tokens: seq<string> -> nat, texts: seq<string>, cap: nat)
    requires forall ts :: tokens(ts) == 0
    ensures Fitted(tokens, texts, cap).Fits?
  {
    var n := |texts|;
    assert texts[..n] == texts && tokens(texts) == 0;
    if n > 0 {
    }
  }

  lemma CrawledStages(env: Env, c: Config, n: nat)
    requires env.search.Found? && env.timeToCrawl && env.crawl.Crawled? && Coherent(env, c)
    requires n == |OkDocs(env.crawl.docs)| > 0
    requires !Fitted(env.tokens, Markdowns(OkDocs(env.crawl.docs)), c.llmInputTokens).TooLarge?
    ensures var reply := env.llm(Fitted(env.tokens, Markdowns(OkDocs(env.crawl.docs)), c.llmInputTokens).texts);
            && StagesOf(env, c) == OPENING + PageStages(n) + Ending(env, reply)
            && (Raised(env, c) <==> env.timeToAsk && ReplyRaises(reply))
  {
    hide Fitted, Markdowns, OkDocs, PageStages, Ending;
  }

  lemma EmptyShapeIsRun(x: Shape, c: Config)
    requires Proper(x) && PagesIn(x) == 0
    ensures Coherent(EnvFor(x), c) && !Raised(EnvFor(x), c) && StagesOf(EnvFor(x), c) == Spell(x)
  {
    assert OkDocs([]) == [];
    hide Fitted, GoodDocs, Markdowns, OkDocs, PageStages;
  }

  lemma EndingOf(x: Shape)
    requires PagesIn(x) > 0
    ensures var env := EnvFor(x);
            && env.search == Found(PagesIn(x)) && env.timeToCrawl && env.crawl == Crawled(GoodDocs(PagesIn(x)))
            && (forall ts :: env.tokens(ts) == 0)
            && forall texts ::
                 && Ending(env, env.llm(texts))
                    == (if x.PagesThenError? then [Failed] else [Synthesized, Validated, Answered])
                 && !(env.timeToAsk && ReplyRaises(env.llm(texts)))
  {
    hide GoodDocs;
  }

  lemma PagedShapeIsRun(x: Shape, c: Config)
    requires Proper(x) && 0 < PagesIn(x) <= c.crawlPagesMax
    ensures Coherent(EnvFor(x), c) && !Raised(EnvFor(x), c) && StagesOf(EnvFor(x), c) == Spell(x)
  {
    hide Fitted, GoodDocs, Markdowns, OkDocs, PageStages, StagesOf, Raised, EnvFor, Ending;
    var n, env := PagesIn(x), EnvFor(x);
    EndingOf(x);
    GoodDocsAreOk(n);
    FreeTokensFit(env.tokens, Markdowns(GoodDocs(n)), c.llmInputTokens);
    CrawledStages(env, c, n);
  }

  lemma ShapeIsRun(x: Shape, c: Config)
    requires Proper(x) && PagesIn(x) <= c.crawlPagesMax
    ensures Coherent(EnvFor(x), c) && !Raised(EnvFor(x), c) && StagesOf(EnvFor(x), c) == Spell(x)
  {
    hide Coherent, Raised, StagesOf, EnvFor, Spell;
    if PagesIn(x) == 0 {
      EmptyShapeIsRun(x, c);
    } else {
      PagedShapeIsRun(x, c);
    }
  }

  /** The grammar is exact: the complete event sequences of runs that do not raise are the words it
      accepts with at most `crawl_pages_max` pages, all of them and no others. */
  lemma GrammarIsExact(w: seq<Stage>, c: Config)
    ensures Accepts(w) && CountPages(w) <= c.crawlPagesMax
            <==> exists env :: Coherent(env, c) && !Raised(env, c) && StagesOf(env, c) == w
  {
    hide StagesOf, Raised, Coherent, Reads, CountPages, Spell;
    if Accepts(w) && CountPages(w) <= c.crawlPagesMax {
      WordOf(w);
      var x :| Proper(x) && w == Spell(x);
      SpellAccepted(x);
      ShapeIsRun(x, c);
    }
    if exists env :: Coherent(env, c) && !Raised(env, c) && StagesOf(env, c) == w {
      var env :| Coherent(env, c) && !Raised(env, c) && StagesOf(env, c) == w;
      var x := RunSpells(env, c);
      SpellAccepted(x);
    }
  }

  /** Whatever a consumer has seen so far, of a run that raises or of one it stopped reading, the
      automaton is still on its way: every prefix can be completed to a word of the grammar. */
  lemma PrefixesAreViable(env: Env, c: Config, n: nat)
    requires Coherent(env, c) && n <= |StagesOf(env, c)|
    ensures Reads(StagesOf(env, c)[..n]) != Stuck
  {
    var w := StagesOf(env, c);
    NotStuck(env, c);
    StuckStays(w, n);
  }

  lemma {:induction false} StuckStays(w: seq<Stage>, n: nat)
    requires n <= |w| && Reads(w) != Stuck
    ensures Reads(w[..n]) != Stuck
  {
    if n < |w| {
      StuckStays(w[..|w| - 1], n);
      assert w[..|w| - 1][..n] == w[..n];
    } else {
      assert w[..n] == w;
    }
  }

  lemma NotStuck(env: Env, c: Config)
    requires Coherent(env, c)
    ensures Reads(StagesOf(env, c)) != Stuck
  {
    hide Fitted;
    if !Raised(env, c) {
      var x := RunSpells(env, c);
      SpellAccepted(x);
    } else {
      ReadsOpening();
      if env.search.Found? && env.crawl.Crawled? {
        var n := |OkDocs(env.crawl.docs)|;
        ReadsPages(n);
        assert OPENING + PageStages(n) + [] == OPENING + PageStages(n);
      }
    }
  }

  lemma AfterTerminal(q: State, s: Stage, next: Stage)
    requires Terminal(s)
    ensures Delta(Delta(q, s), next) == Stuck
  {
  }

  /** A terminal event is the last one, so there is never a second. */
  lemma {:induction false} TerminalIsLast(w: seq<Stage>, i: nat)
    requires Reads(w) != Stuck && i < |w| - 1
    ensures !Terminal(w[i])
  {
    hide Reads, Delta, CountPages;
    StuckStays(w, i + 2);
    assert w[..i + 2] == w[..i + 1] + [w[i + 1]] && w[..i + 1] == w[..i] + [w[i]];
    ReadsSnoc(w[..i + 1], w[i + 1]);
    ReadsSnoc(w[..i], w[i]);
    if Terminal(w[i]) {
      AfterTerminal(Reads(w[..i]), w[i], w[i + 1]);
    }
  }
}
