/**
 * The posting pipeline: scan one source's feed for a title not yet posted, try
 * to publish it, and walk the sources round-robin until one post goes out.
 * The feeds, the article pages and whether the provider accepts each send are
 * inputs (a `World`); the two persisted stores are fields of `Bot`.
 */
module Poster {
  import opened Wrappers
  import opened Text
  import opened History
  import opened Rotation
  import opened Schedule
  import opened Article
  import opened Publish

  /** A feed entry; a missing attribute raises `AttributeError` when read. */
  datatype Entry = Entry(title: Option<string>, link: Option<string>)

  /** A source's feed as fetched and parsed: `FeedUnavailable` for a transport
      error, a timeout, a non-2xx status or a parser exception. */
  datatype Feed = FeedUnavailable | Feed(entries: seq<Entry>)

  /** Everything outside the program during one run: the feed of every catalog
      source, the page behind entry `e` of source `s` (`page(s, e)`), whether
      `Bot(BOT_TOKEN)` (line 119) can be built from the configured token
      (`botBuilds`, the same for every attempt since the token is fixed), and
      whether the provider accepts the send made for entry `e` of source `s`
      (`delivered(s, e)`). */
  datatype World = World(feeds: seq<Feed>, page: (nat, nat) -> Page, botBuilds: bool,
                         delivered: (nat, nat) -> bool)

  /** How `post_news_from_source` ends. Every case but `Posted` returns False. */
  datatype Outcome =
    | Posted(entry: nat, title: string)
    | FeedFailed
    | EmptyFeed
    | NoUniqueEntry
    | Aborted       // an exception caught on line 161

  /** How `send_post_to_telegram` ends: True, False, or an exception. */
  datatype SendResult = Sent | NotSent | Raised

  /** How one `main_task` run ends. */
  datatype RunResult = PostedFrom(source: nat, title: string) | NothingPosted

  /** The send for entry `e` of source `src` succeeds: there is a summary to
      post, the bot can be built and the provider accepts the post. */
  predicate Sends(w: World, src: nat, e: nat, title: string) {
    Compose(title, ArticleDetails(w.page(src, e))).Some? && w.botBuilds && w.delivered(src, e)
  }

  /** The send for entry `e` of source `src` raises: there is a summary to post
      but building the bot (line 119, outside the `try` of line 122) fails. */
  predicate BotRaises(w: World, src: nat, e: nat, title: string) {
    Compose(title, ArticleDetails(w.page(src, e))).Some? && !w.botBuilds
  }

  /** What the loop body (lines 151-157) does with one entry. */
  datatype Step =
    | Skip              // a duplicate, or a unique title whose send failed
    | Publish(title: string)
    | Abort             // a missing title or link, or a bot that cannot be built, raises

  /** Lines 151-157 for entry `k` of source `src`, against the log `recent`. */
  function EntryStep(m: Matcher, w: World, src: nat, e: Entry, recent: seq<string>, k: nat): Step {
    match e.title
    case None => Abort
    case Some(raw) =>
      var t := Strip(raw);
      if Duplicate(m, t, recent) then Skip
      else if e.link.None? then Abort
      else if BotRaises(w, src, k, t) then Abort
      else if Sends(w, src, k, t) then Publish(t)
      else Skip
  }

  /** The step of every entry of the feed, in feed order. */
  function Steps(m: Matcher, w: World, src: nat, entries: seq<Entry>, recent: seq<string>): (steps: seq<Step>)
    ensures |steps| == |entries|
  {
    seq(|entries|, k requires 0 <= k < |entries| => EntryStep(m, w, src, entries[k], recent, k))
  }

  /** Element `k` of `Steps`: the step of entry `k`. */
  lemma StepAt(m: Matcher, w: World, src: nat, entries: seq<Entry>, recent: seq<string>, k: nat)
    requires k < |entries|
    ensures Steps(m, w, src, entries, recent)[k] == EntryStep(m, w, src, entries[k], recent, k)
  {
  }

  /** Lines 150-160: the scan goes through the steps from position `k` on,
      ending at the first entry that publishes or aborts. */
  function ScanFrom(steps: seq<Step>, k: nat): (o: Outcome)
    requires k <= |steps|
    ensures o.Posted? || o.NoUniqueEntry? || o.Aborted?
    ensures o.Posted? ==> k <= o.entry < |steps|
    decreases |steps| - k
  {
    if k == |steps| then NoUniqueEntry
    else match steps[k]
      case Skip => ScanFrom(steps, k + 1)
      case Publish(t) => Posted(k, t)
      case Abort => Aborted
  }

  /** Lines 139-163 for source `src`, checking titles against `recent`. */
  function SourceOutcome(m: Matcher, w: World, src: nat, recent: seq<string>): Outcome
    requires src < |w.feeds|
  {
    match w.feeds[src]
    case FeedUnavailable => FeedFailed
    case Feed(entries) =>
      if |entries| == 0 then EmptyFeed else ScanFrom(Steps(m, w, src, entries, recent), 0)
  }

  /** An entry posts exactly when it has a title that is not a duplicate, a
      link, and a send that succeeds; the title posted is the stripped one. It
      is passed over when its title is a duplicate or its send fails without
      raising, and it aborts the scan otherwise. */
  lemma EntryPublishes(m: Matcher, w: World, src: nat, e: Entry, recent: seq<string>, k: nat)
    ensures EntryStep(m, w, src, e, recent, k).Publish?
            <==> e.title.Some? && !Duplicate(m, Strip(e.title.value), recent)
                 && e.link.Some? && Sends(w, src, k, Strip(e.title.value))
    ensures EntryStep(m, w, src, e, recent, k).Publish? ==>
              EntryStep(m, w, src, e, recent, k).title == Strip(e.title.value)
    ensures EntryStep(m, w, src, e, recent, k).Skip?
            <==> e.title.Some? && (Duplicate(m, Strip(e.title.value), recent)
                                   || (e.link.Some? && !Sends(w, src, k, Strip(e.title.value))
                                       && !BotRaises(w, src, k, Strip(e.title.value))))
    ensures EntryStep(m, w, src, e, recent, k).Abort?
            <==> e.title.None? || (!Duplicate(m, Strip(e.title.value), recent)
                                   && (e.link.None? || BotRaises(w, src, k, Strip(e.title.value))))
  {
  }

  /** A scan that posts ends at an entry whose step publishes that title. */
  lemma {:induction false} ScanPostsPublishedStep(steps: seq<Step>, k: nat)
    requires k <= |steps|
    ensures var o := ScanFrom(steps, k);
      o.Posted? ==> steps[o.entry] == Publish(o.title)
    decreases |steps| - k
  {
    if k < |steps| && steps[k].Skip? {
      ScanPostsPublishedStep(steps, k + 1);
    }
  }

  /** The scan posts entry `i` exactly when `i` publishes and every entry before
      it is skipped. */
  lemma {:induction false} ScanPostsFirstSuccess(steps: seq<Step>, k: nat, i: nat)
    requires k <= i < |steps|
    ensures (ScanFrom(steps, k).Posted? && ScanFrom(steps, k).entry == i)
            <==> (steps[i].Publish? && forall j :: k <= j < i ==> steps[j].Skip?)
    decreases i - k
  {
    if k < i {
      ScanPostsFirstSuccess(steps, k + 1, i);
    }
  }

  /** The scan finds nothing new exactly when every entry is skipped. */
  lemma {:induction false} ScanFindsNothingIff(steps: seq<Step>, k: nat)
    requires k <= |steps|
    ensures ScanFrom(steps, k).NoUniqueEntry? <==> forall j :: k <= j < |steps| ==> steps[j].Skip?
    decreases |steps| - k
  {
    if k < |steps| {
      ScanFindsNothingIff(steps, k + 1);
    }
  }

  /** Whatever a source posts is a title that was not a duplicate of the log,
      and its send succeeded. */
  lemma PostedTitleIsNew(m: Matcher, w: World, src: nat, recent: seq<string>)
    requires src < |w.feeds|
    ensures var o := SourceOutcome(m, w, src, recent);
      o.Posted? ==> !Duplicate(m, o.title, recent) && Sends(w, src, o.entry, o.title)
  {
    var o := SourceOutcome(m, w, src, recent);
    if o.Posted? {
      var entries := w.feeds[src].entries;
      ScanPostsPublishedStep(Steps(m, w, src, entries, recent), 0);
      StepAt(m, w, src, entries, recent, o.entry);
      EntryPublishes(m, w, src, entries[o.entry], recent, o.entry);
    }
  }

  /** A bot that cannot be built posts nothing from any source. */
  lemma NoBotPostsNothing(m: Matcher, w: World, src: nat, recent: seq<string>)
    requires src < |w.feeds| && !w.botBuilds
    ensures !SourceOutcome(m, w, src, recent).Posted?
  {
    PostedTitleIsNew(m, w, src, recent);
  }

  /** When every title of the feed is already a duplicate, the source posts
      nothing (so a second run over a fully posted, unchanged feed changes
      nothing). */
  lemma AllDuplicatesPostNothing(m: Matcher, w: World, src: nat, recent: seq<string>)
    requires src < |w.feeds|
    requires w.feeds[src].Feed? ==> forall j :: 0 <= j < |w.feeds[src].entries| ==>
               w.feeds[src].entries[j].title.Some? &&
               Duplicate(m, Strip(w.feeds[src].entries[j].title.value), recent)
    ensures !SourceOutcome(m, w, src, recent).Posted?
  {
    if w.feeds[src].Feed? && |w.feeds[src].entries| > 0 {
      var entries := w.feeds[src].entries;
      var steps := Steps(m, w, src, entries, recent);
      forall j | 0 <= j < |steps| ensures steps[j].Skip? {
        StepAt(m, w, src, entries, recent, j);
        EntryPublishes(m, w, src, entries[j], recent, j);
      }
      ScanFindsNothingIff(steps, 0);
    }
  }

  /** Scanning the same feed again right after a post never posts a title
      similar to the one just recorded, so never the same entry, provided the
      ratio scores a title against itself above the threshold (as `fuzz.ratio`,
      which gives 100 to equal strings, does). */
  lemma RescanSkipsPostedTitle(m: Matcher, w: World, src: nat, recent: seq<string>)
    requires src < |w.feeds|
    requires SourceOutcome(m, w, src, recent).Posted?
    requires var t := SourceOutcome(m, w, src, recent).title; Similar(m, t, t)
    ensures var t := SourceOutcome(m, w, src, recent).title;
      var o := SourceOutcome(m, w, src, KeepRecent(recent, t));
      o.Posted? ==> !Similar(m, o.title, t) && o.entry != SourceOutcome(m, w, src, recent).entry
  {
    var first := SourceOutcome(m, w, src, recent);
    var t := first.title;
    var h := KeepRecent(recent, t);
    var o := SourceOutcome(m, w, src, h);
    if o.Posted? {
      PostedTitleIsNew(m, w, src, h);
      if Similar(m, o.title, t) {
        RecordedTitleBlocksSimilar(m, recent, t, o.title);
        assert false;
      }
      if o.entry == first.entry {
        var entries := w.feeds[src].entries;
        var e := entries[o.entry];
        ScanPostsPublishedStep(Steps(m, w, src, entries, recent), 0);
        ScanPostsPublishedStep(Steps(m, w, src, entries, h), 0);
        StepAt(m, w, src, entries, recent, o.entry);
        StepAt(m, w, src, entries, h, o.entry);
        EntryPublishes(m, w, src, e, recent, o.entry);
        EntryPublishes(m, w, src, e, h, o.entry);
        RecordedTitleBlocksSimilar(m, recent, t, t);
        assert false;
      }
    }
  }

  /** `[f(from), f(from + 1), ..., f(from + n - 1)]`. */
  function Tabulate<T>(f: nat -> T, from: nat, n: nat): (r: seq<T>)
    ensures |r| == n
    decreases n
  {
    if n == 0 then [] else [f(from)] + Tabulate(f, from + 1, n - 1)
  }

  /** Element `i - from` of `Tabulate(f, from, n)` is `f(i)`. */
  lemma {:induction false} TabulateAt<T>(f: nat -> T, from: nat, n: nat, i: nat)
    requires from <= i < from + n
    ensures Tabulate(f, from, n)[i - from] == f(i)
    decreases n
  {
    if from < i {
      TabulateAt(f, from + 1, n - 1, i);
    }
  }

  /** What source `src` would do this run when scanned against `hist`. */
  function OutcomeOf(m: Matcher, w: World, hist: seq<string>): nat -> Outcome {
    (src: nat) => if src < |w.feeds| then SourceOutcome(m, w, src, hist) else FeedFailed
  }

  /** What every catalog source would do this run when scanned against `hist`. */
  function Outcomes(m: Matcher, w: World, hist: seq<string>): (os: seq<Outcome>)
    requires |w.feeds| == SourceCount
    ensures |os| == SourceCount
  {
    Tabulate(OutcomeOf(m, w, hist), 0, SourceCount)
  }

  /** Element `src` of `Outcomes`: what source `src` does. */
  lemma OutcomeAt(m: Matcher, w: World, hist: seq<string>, src: nat)
    requires |w.feeds| == SourceCount && src < SourceCount
    ensures Outcomes(m, w, hist)[src] == SourceOutcome(m, w, src, hist)
  {
    TabulateAt(OutcomeOf(m, w, hist), 0, SourceCount, src);
  }

  /** Lines 174-182: the sources from step `i` of the run on, whose outcomes are
      `os`, until one posts. */
  function RunFrom(os: seq<Outcome>, start: nat, i: nat): (r: RunResult)
    requires |os| == SourceCount && start < SourceCount && i <= SourceCount
    ensures r.PostedFrom? ==> r.source < SourceCount
    decreases SourceCount - i
  {
    if i == SourceCount then NothingPosted
    else
      var src := VisitAt(start, i);
      if os[src].Posted? then PostedFrom(src, os[src].title) else RunFrom(os, start, i + 1)
  }

  /** One step of the run: step `i` either posts from its source or hands on to
      step `i + 1`. */
  lemma RunStep(os: seq<Outcome>, start: nat, i: nat)
    requires |os| == SourceCount && start < SourceCount && i < SourceCount
    ensures var src := VisitAt(start, i);
      RunFrom(os, start, i) ==
        if os[src].Posted? then PostedFrom(src, os[src].title) else RunFrom(os, start, i + 1)
  {
  }

  /** The run posts from the source of step `i` exactly when that source posts
      and none of the sources tried before it does; the title is that source's. */
  lemma {:induction false} RunPostsFirstSuccessfulSource(os: seq<Outcome>, start: nat, k: nat, i: nat)
    requires |os| == SourceCount && start < SourceCount && k <= i < SourceCount
    ensures var r := RunFrom(os, start, k);
      (r.PostedFrom? && r.source == VisitAt(start, i))
      <==> (os[VisitAt(start, i)].Posted?
            && forall j :: k <= j < i ==> !os[VisitAt(start, j)].Posted?)
    ensures var r := RunFrom(os, start, k);
      r.PostedFrom? && r.source == VisitAt(start, i) ==> r.title == os[r.source].title
    decreases i - k
  {
    if k < i {
      RunPostsFirstSuccessfulSource(os, start, k + 1, i);
      var src := VisitAt(start, k);
      assert src != VisitAt(start, i);
      if os[src].Posted? {
        // step `k` posts first, so step `i` does not
        assert RunFrom(os, start, k) == PostedFrom(src, os[src].title);
        assert !(forall j :: k <= j < i ==> !os[VisitAt(start, j)].Posted?) by {
          assert os[VisitAt(start, k)].Posted?;
        }
      } else {
        assert RunFrom(os, start, k) == RunFrom(os, start, k + 1);
        assert (forall j :: k <= j < i ==> !os[VisitAt(start, j)].Posted?)
               <==> (forall j :: k + 1 <= j < i ==> !os[VisitAt(start, j)].Posted?);
      }
    } else {
      RunSkipsEarlierSteps(os, start, i + 1, i);
    }
  }

  /** From step `k` on, a run never posts from a source it tried at an earlier
      step. */
  lemma {:induction false} RunSkipsEarlierSteps(os: seq<Outcome>, start: nat, k: nat, j: nat)
    requires |os| == SourceCount && start < SourceCount && j < k <= SourceCount
    ensures RunFrom(os, start, k).PostedFrom? ==> RunFrom(os, start, k).source != VisitAt(start, j)
    decreases SourceCount - k
  {
    if k < SourceCount {
      RunSkipsEarlierSteps(os, start, k + 1, j);
    }
  }

  /** A run posts nothing exactly when no source posts. */
  lemma {:induction false} RunPostsNothingIff(os: seq<Outcome>, start: nat, k: nat)
    requires |os| == SourceCount && start < SourceCount && k <= SourceCount
    ensures RunFrom(os, start, k).NothingPosted?
            <==> forall j :: k <= j < SourceCount ==> !os[VisitAt(start, j)].Posted?
    decreases SourceCount - k
  {
    if k < SourceCount {
      RunPostsNothingIff(os, start, k + 1);
    }
  }

  /** The process-wide state: the posted-title log and the stored rotation
      index (`None` when the state file is missing or does not hold an integer). */
  class Bot {
    var history: seq<string>
    var rotation: Option<int>

    /** Starts from whatever the two stores hold. */
    constructor (history: seq<string>, rotation: Option<int>)
      ensures this.history == history && this.rotation == rotation
    {
      this.history := history;
      this.rotation := rotation;
    }

    /** `get_next_source_index`. */
    function NextSourceIndex(): (r: nat)
      reads this
      ensures r == NextStart(rotation)
      ensures r < SourceCount
      ensures rotation.None? ==> r == 0
      ensures rotation.Some? ==> (rotation.value + 1 - r) % SourceCount == 0
      ensures rotation.Some? && 0 <= rotation.value < SourceCount ==>
                r == if rotation.value + 1 < SourceCount then rotation.value + 1 else 0
    {
      NextStart(rotation)
    }

    /** `save_current_source_index`. */
    method SaveSourceIndex(index: nat)
      modifies this
      ensures rotation == Some(index) && history == old(history)
    {
      rotation := Some(index);
    }

    /** `add_recent_title`: append, then keep the `MaxTitles` newest. */
    method AddRecentTitle(title: string)
      modifies this
      ensures history == KeepRecent(old(history), title) && rotation == old(rotation)
      ensures |history| <= MaxTitles && history[|history| - 1] == title
    {
      var titles := history + [title];
      if |titles| > MaxTitles {
        titles := titles[|titles| - MaxTitles..];
      }
      history := titles;
    }

    /** `send_post_to_telegram`: `sent` is the request made to the provider
        (`None` when there is no summary or the bot cannot be built),
        `botBuilds` whether `Bot(BOT_TOKEN)` succeeds and `delivered` the
        provider's answer. `Raised` is the exception line 119 lets escape; the
        title is recorded only after a send that succeeded. */
    method SendPost(title: string, page: Page, botBuilds: bool, delivered: bool)
      returns (result: SendResult, sent: Option<Post>)
      modifies this
      ensures var p := Compose(title, ArticleDetails(page));
        && sent == (if botBuilds then p else None)
        && (result.Raised? <==> p.Some? && !botBuilds)
        && (result.Sent? <==> p.Some? && botBuilds && delivered)
      ensures history == (if result.Sent? then KeepRecent(old(history), title) else old(history))
      ensures rotation == old(rotation)
    {
      var details := ArticleDetails(page);
      var post := Compose(title, details);
      if post.None? {
        return NotSent, None;
      }
      if !botBuilds {
        return Raised, None;
      }
      sent := post;
      if delivered {
        AddRecentTitle(title);
        result := Sent;
      } else {
        result := NotSent;
      }
    }

    /** The body of the entry loop (lines 151-157) for entry `k` of source
        `src`: strip the title, skip a duplicate, otherwise resolve the link and
        try to send. `Abort` stands for the `AttributeError` a missing title or
        link raises, and for a bot that cannot be built. */
    method TryEntry(m: Matcher, w: World, src: nat, entry: Entry, recent: seq<string>, k: nat) returns (step: Step)
      requires history == recent
      modifies this
      ensures step == EntryStep(m, w, src, entry, recent, k)
      ensures history == (if step.Publish? then KeepRecent(recent, step.title) else recent)
      ensures rotation == old(rotation)
    {
      if entry.title.None? {
        return Abort;
      }
      var title := Strip(entry.title.value);
      ghost var compared;
      var dup;
      dup, compared := IsDuplicateTitle(m, title, recent);
      if dup {
        return Skip;
      }
      if entry.link.None? {
        return Abort;
      }
      var result, _ := SendPost(title, w.page(src, k), w.botBuilds, w.delivered(src, k));
      match result
      case Sent => return Publish(title);
      case Raised => return Abort;
      case NotSent => return Skip;
    }

    /** `post_news_from_source` for catalog source `src`: the log is read once,
        entries are tried in feed order, a failed send moves on to the next
        entry, and the first send that succeeds ends the scan. */
    method PostFromSource(m: Matcher, w: World, src: nat) returns (posted: bool)
      requires src < |w.feeds|
      modifies this
      ensures var o := SourceOutcome(m, w, src, old(history));
        posted == o.Posted? &&
        history == (if o.Posted? then KeepRecent(old(history), o.title) else old(history))
      ensures rotation == old(rotation)
    {
      if w.feeds[src].FeedUnavailable? {
        return false;
      }
      var entries := w.feeds[src].entries;
      if |entries| == 0 {
        return false;
      }
      var recent := history;
      ghost var steps := Steps(m, w, src, entries, recent);
      ghost var outcome := ScanFrom(steps, 0);
      assert outcome == SourceOutcome(m, w, src, old(history));
      var k := 0;
      while k < |entries|
        invariant k <= |entries|
        invariant history == recent && rotation == old(rotation)
        invariant ScanFrom(steps, k) == outcome
        decreases |entries| - k
      {
        var step := TryEntry(m, w, src, entries[k], recent, k);
        StepAt(m, w, src, entries, recent, k);
        assert steps[k] == step;
        match step
        case Publish(t) =>
          assert ScanFrom(steps, k) == Posted(k, t);
          return true;
        case Abort =>
          assert ScanFrom(steps, k) == Aborted;
          return false;
        case Skip =>
          assert ScanFrom(steps, k + 1) == ScanFrom(steps, k);
          k := k + 1;
      }
      assert ScanFrom(steps, k) == NoUniqueEntry;
      return false;
    }

    /** One turn of the `main_task` loop (lines 176-181): try source `src` and,
        when it posts, commit its index. `os` is what every source would do
        against the log as it stands. */
    method TrySource(m: Matcher, w: World, ghost os: seq<Outcome>, src: nat) returns (ok: bool)
      requires |w.feeds| == SourceCount && src < SourceCount
      requires os == Outcomes(m, w, history)
      modifies this
      ensures var o := os[src];
        && ok == o.Posted?
        && history == (if ok then KeepRecent(old(history), o.title) else old(history))
        && rotation == (if ok then Some(src) else old(rotation))
    {
      OutcomeAt(m, w, history, src);
      ok := PostFromSource(m, w, src);
      if ok {
        SaveSourceIndex(src);
      }
    }

    /** `main_task`: start after the source that posted last, try each source
        once in rotation order, and commit the index of the one that posts. */
    method MainTask(m: Matcher, w: World) returns (postSent: bool)
      requires |w.feeds| == SourceCount
      modifies this
      ensures var r := RunFrom(Outcomes(m, w, old(history)), NextStart(old(rotation)), 0);
        && postSent == r.PostedFrom?
        && rotation == (if r.PostedFrom? then Some(r.source) else old(rotation))
        && history == (if r.PostedFrom? then KeepRecent(old(history), r.title) else old(history))
    {
      var start := NextSourceIndex();
      ghost var h0, r0 := history, rotation;
      ghost var os := Outcomes(m, w, h0);
      ghost var run := RunFrom(os, start, 0);
      assert start == NextStart(r0);
      postSent := false;
      var i := 0;
      while i < SourceCount
        invariant i <= SourceCount
        invariant history == h0 && rotation == r0
        invariant RunFrom(os, start, i) == run
      {
        var current := VisitAt(start, i);
        RunStep(os, start, i);
        var ok := TrySource(m, w, os, current);
        if ok {
          postSent := true;
          return;
        }
        i := i + 1;
      }
    }

    /** `job`: run only outside the quiet hours 1..7, and otherwise touch nothing. */
    method Job(m: Matcher, w: World, hour: int)
      requires |w.feeds| == SourceCount
      modifies this
      ensures !RunsAt(hour) ==> history == old(history) && rotation == old(rotation)
      ensures RunsAt(hour) ==>
        var r := RunFrom(Outcomes(m, w, old(history)), NextStart(old(rotation)), 0);
        && rotation == (if r.PostedFrom? then Some(r.source) else old(rotation))
        && history == (if r.PostedFrom? then KeepRecent(old(history), r.title) else old(history))
    {
      if !RunsAt(hour) {
        return;
      }
      var _ := MainTask(m, w);
    }
  }
}
