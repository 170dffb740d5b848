/** The deployment stream merged from RAUC's two signals, and the fold that reports its progress. */
module OtaDeploy {
  import opened Wrappers
  import opened Bytes
  import opened OtaStatuses

  datatype DeployStatus = Progress(progress: DeployProgress) | Completed(signal: I32)

  /** One item of the merged stream: a status, or an error of either signal. */
  type Item = Result<DeployStatus, ()>

  // ----- The merged stream -----

  datatype ProgressPoll = NoProgress | ProgressEnded | Changed(progress: DeployProgress) | ProgressFailed

  datatype CompletedPoll = NotCompleted | CompletedEnded | Signaled(signal: I32) | BadArguments

  datatype Polled = Pending | Finished | Yield(item: Item)

  /** What the two signals are going to answer, poll by poll, and whether completion was seen. */
  datatype Streams = Streams(progress: seq<ProgressPoll>, completions: seq<CompletedPoll>, completed: bool)

  function PollSpec(s: Streams): (Streams, Polled) {
    if s.completed then (s, Finished)
    else
      var (rest, head) := if s.progress == [] then ([], NoProgress) else (s.progress[1..], s.progress[0]);
      match head
      case Changed(p) => (s.(progress := rest), Yield(Ok(Progress(p))))
      case ProgressFailed => (s.(progress := rest), Yield(Err(())))
      case NoProgress | ProgressEnded =>
        if s.completions == [] || s.completions[0].NotCompleted? then
          (s.(progress := rest, completions := if s.completions == [] then [] else s.completions[1..]), Pending)
        else
          (Streams(rest, s.completions[1..], true),
           match s.completions[0]
           case CompletedEnded => Finished
           case BadArguments => Yield(Err(()))
           case Signaled(signal) => Yield(Ok(Completed(signal)))
           case NotCompleted => Pending)
  }

  class DeployStream {
    var progress: seq<ProgressPoll>
    var completions: seq<CompletedPoll>
    var completed: bool

    function State(): Streams
      reads this
    {
      Streams(progress, completions, completed)
    }

    constructor (progress: seq<ProgressPoll>, completions: seq<CompletedPoll>)
      ensures State() == Streams(progress, completions, false)
    {
      this.progress, this.completions, completed := progress, completions, false;
    }

    method PollCompleted() returns (p: Polled)
      modifies this`completions, this`completed
      ensures if old(completions) == [] then completions == [] && p == Pending && completed == old(completed)
              else completions == old(completions)[1..] &&
                   match old(completions)[0]
                   case NotCompleted => p == Pending && completed == old(completed)
                   case CompletedEnded => p == Finished && completed
                   case BadArguments => p == Yield(Err(())) && completed
                   case Signaled(signal) => p == Yield(Ok(Completed(signal))) && completed
    {
      if completions == [] {
        return Pending;
      }
      var head := completions[0];
      completions := completions[1..];
      match head {
        case NotCompleted => p := Pending;
        case CompletedEnded =>
          completed := true;
          p := Finished;
        case BadArguments =>
          completed := true;
          p := Yield(Err(()));
        case Signaled(signal) =>
          completed := true;
          p := Yield(Ok(Completed(signal)));
      }
    }

    method PollProgress() returns (p: Polled)
      modifies this`progress
      ensures progress == if old(progress) == [] then [] else old(progress)[1..]
      ensures p == if old(progress) == [] then Pending
                   else match old(progress)[0]
                        case NoProgress => Pending
                        case ProgressEnded => Finished
                        case Changed(v) => Yield(Ok(Progress(v)))
                        case ProgressFailed => Yield(Err(()))
    {
      if progress == [] {
        return Pending;
      }
      var head := progress[0];
      progress := progress[1..];
      match head {
        case NoProgress => p := Pending;
        case ProgressEnded => p := Finished;
        case Changed(v) => p := Yield(Ok(Progress(v)));
        case ProgressFailed => p := Yield(Err(()));
      }
    }

    method PollNext() returns (p: Polled)
      modifies this
      ensures (State(), p) == PollSpec(old(State()))
      ensures !old(completed) && old(progress) != [] && old(progress)[0].Changed? ==>
        && p == Yield(Ok(Progress(old(progress)[0].progress)))
        && completions == old(completions) && !completed && progress == old(progress)[1..]
    {
      if completed {
        return Finished;
      }
      p := PollProgress();
      if p.Yield? {
        return;
      }
      p := PollCompleted();
    }
  }

  /** The answers to `n` polls in a row. */
  function PollMany(s: Streams, n: nat): (r: seq<Polled>)
    ensures |r| == n
    decreases n
  {
    if n == 0 then [] else [PollSpec(s).1] + PollMany(PollSpec(s).0, n - 1)
  }

  predicate EndsStream(p: Polled) {
    p.Finished? || (p.Yield? && p.item.Ok? && p.item.value.Completed?)
  }

  lemma {:induction false} CompletedStaysFinished(s: Streams, n: nat)
    requires s.completed
    ensures forall i | 0 <= i < n :: PollMany(s, n)[i] == Finished
    decreases n
  {
    if n > 0 {
      CompletedStaysFinished(s, n - 1);
    }
  }

  /** However the two signals interleave, nothing follows the completion, and so there is at most
      one Completed item. */
  lemma {:induction false} NothingAfterCompletion(s: Streams, n: nat, i: nat, j: nat)
    requires i < j < n
    requires EndsStream(PollMany(s, n)[i])
    ensures PollMany(s, n)[j] == Finished
    decreases n
  {
    if i == 0 {
      CompletedStaysFinished(PollSpec(s).0, n - 1);
    } else {
      NothingAfterCompletion(PollSpec(s).0, n - 1, i - 1, j - 1);
    }
  }

  /** Progress that is there is yielded before a completion, however long the completion has been there too. */
  lemma {:induction false} ProgressComesFirst(s: Streams, n: nat, k: nat)
    requires !s.completed && k < n && k < |s.progress|
    requires forall i | 0 <= i <= k :: s.progress[i].Changed?
    ensures PollMany(s, n)[k] == Yield(Ok(Progress(s.progress[k].progress)))
    decreases k
  {
    if k > 0 {
      ProgressComesFirst(PollSpec(s).0, n - 1, k - 1);
    }
  }

  /** The completion is yielded by the first poll that finds no progress and a signal. */
  lemma {:induction false} CompletionComesNext(s: Streams, n: nat, k: nat)
    requires !s.completed && k < n && k <= |s.progress| && (k < |s.progress| ==> s.progress[k].NoProgress?)
    requires forall i | 0 <= i < k :: s.progress[i].Changed?
    requires s.completions != [] && s.completions[0].Signaled?
    ensures PollMany(s, n)[k] == Yield(Ok(Completed(s.completions[0].signal)))
    decreases k
  {
    if k > 0 {
      CompletionComesNext(PollSpec(s).0, n - 1, k - 1);
    }
  }

  // ----- The fold -----

  const STEP: I32 := 10

  /** Subtraction of two 32-bit integers as a release build does it. */
  function WrappingSub(a: I32, b: I32): I32 {
    var d := a - b;
    if d < -0x8000_0000 then (d + 0x1_0000_0000)
    else if d >= 0x8000_0000 then (d - 0x1_0000_0000)
    else d
  }

  datatype Folded = Folded(status: DeployStatus, published: seq<DeployProgress>)

  function Absorb(f: Folded, item: DeployStatus): Folded {
    match item
    case Completed(_) => f.(status := item)
    case Progress(p) =>
      if f.status.Progress? && WrappingSub(p.percentage, f.status.progress.percentage) >= STEP
      then Folded(item, f.published + [p])
      else f
  }

  function Fold(items: seq<DeployStatus>): Folded {
    if items == [] then Folded(Progress(NO_PROGRESS), [])
    else Absorb(Fold(items[..|items| - 1]), items[|items| - 1])
  }

  /** The statuses up to the first error of the stream, which ends the fold. */
  function Statuses(items: seq<Item>): (s: seq<DeployStatus>)
    ensures |s| <= |items|
    ensures forall i | 0 <= i < |s| :: items[i] == Ok(s[i])
    ensures |s| < |items| ==> items[|s|].Err?
  {
    if items == [] || items[0].Err? then [] else [items[0].value] + Statuses(items[1..])
  }

  datatype Ending = Signal(signal: I32) | NoCompletion | StreamError

  function EndingOf(items: seq<Item>): Ending {
    var s := Statuses(items);
    if |s| < |items| then StreamError
    else match Fold(s).status case Completed(signal) => Signal(signal) case Progress(_) => NoCompletion
  }

  /** Consumes the items of a stream that has ended. */
  method FoldStream(items: seq<Item>) returns (published: seq<DeployProgress>, ending: Ending)
    ensures published == Fold(Statuses(items)).published
    ensures ending == EndingOf(items)
  {
    var status := Progress(NO_PROGRESS);
    published := [];
    ghost var all := Statuses(items);
    var i := 0;
    while i < |items|
      invariant i <= |all|
      invariant Folded(status, published) == Fold(all[..i])
    {
      if items[i].Err? {
        assert all[..i] == all;
        return published, StreamError;
      }
      var item := items[i].value;
      assert all[..i + 1][..i] == all[..i];
      match item {
        case Completed(_) => status := item;
        case Progress(progress) =>
          var last := if status.Progress? then status.progress.percentage else progress.percentage;
          if WrappingSub(progress.percentage, last) >= STEP {
            published := published + [progress];
            status := item;
          }
      }
      i := i + 1;
    }
    assert all[..i] == all;
    ending := match status case Completed(signal) => Signal(signal) case Progress(_) => NoCompletion;
  }

  /** The last completion among `items` carries `signal`. */
  ghost predicate LastSignal(items: seq<DeployStatus>, signal: I32) {
    exists i :: 0 <= i < |items| && items[i] == Completed(signal) &&
      forall j | i < j < |items| :: items[j].Progress?
  }

  /** A completion is never downgraded to progress: the fold ends in the last completion there is. */
  lemma {:induction false} CompletionIsKept(items: seq<DeployStatus>, signal: I32)
    ensures Fold(items).status == Completed(signal) <==> LastSignal(items, signal)
  {
    if items != [] {
      var n := |items| - 1;
      var head := items[..n];
      CompletionIsKept(head, signal);
      if items[n].Progress? && LastSignal(items, signal) {
        var i :| 0 <= i < |items| && items[i] == Completed(signal) && forall j | i < j < |items| :: items[j].Progress?;
        assert head[i] == Completed(signal);
      }
      if items[n].Progress? && LastSignal(head, signal) {
        var i :| 0 <= i < n && head[i] == Completed(signal) && forall j | i < j < n :: head[j].Progress?;
        assert items[i] == Completed(signal);
        forall j | i < j < |items| ensures items[j].Progress? { assert j < n ==> items[j] == head[j]; }
      }
    }
  }

  /** The deployment ends in `signal` exactly when the stream ended without an error and the last of its
      completions carries that signal; it ends in an error exactly when there is one, before or after a completion. */
  lemma EndsInSignal(items: seq<Item>, signal: I32)
    ensures EndingOf(items) == Signal(signal) <==>
      (forall x <- items :: x.Ok?) && LastSignal(Statuses(items), signal)
    ensures EndingOf(items).StreamError? <==> exists x <- items :: x.Err?
    ensures EndingOf(items).NoCompletion? <==> forall x <- items :: x.Ok? && x.value.Progress?
  {
    var s := Statuses(items);
    assert |s| < |items| ==> items[|s|] in items;
    assert |s| == |items| ==> forall i | 0 <= i < |items| :: items[i] == Ok(s[i]);
    assert forall i | 0 <= i < |items| :: items[i] in items;
    CompletionIsKept(s, signal);
    OnlyProgressSoFar(s);
  }

  /** What the `i`-th report gains over the one before, or over 0. */
  function Gain(published: seq<DeployProgress>, i: nat): int
    requires i < |published|
  {
    published[i].percentage - (if i == 0 then 0 else published[i - 1].percentage)
  }

  predicate RisesByTen(published: seq<DeployProgress>) {
    forall i | 0 <= i < |published| :: Gain(published, i) >= STEP
  }

  /** The subtraction at item `i` wraps far enough around to look like a gain of ten. */
  predicate Slips(items: seq<DeployStatus>, i: nat)
    requires i < |items|
  {
    var before := Fold(items[..i]).status;
    items[i].Progress? && before.Progress? &&
    var d := items[i].progress.percentage - before.progress.percentage;
    d < -0x8000_0000 && d + 0x1_0000_0000 >= STEP
  }

  /** The percentage the fold compares with is the last one it published. */
  lemma {:induction false} ComparesWithLastPublished(items: seq<DeployStatus>)
    ensures var f := Fold(items);
      f.status.Progress? ==>
        f.status.progress == (if f.published == [] then NO_PROGRESS else f.published[|f.published| - 1])
  {
    if items != [] {
      ComparesWithLastPublished(items[..|items| - 1]);
    }
  }

  lemma RisesWithLast(s: seq<DeployProgress>, p: DeployProgress)
    ensures RisesByTen(s + [p]) <==> RisesByTen(s) && Gain(s + [p], |s|) >= STEP
  {
    assert forall i | 0 <= i < |s| :: Gain(s + [p], i) == Gain(s, i);
  }

  /** While no installation has completed, progress is published exactly when it gains ten on the last percentage
      that was, or on 0, unless the subtraction leaves the 32-bit integers; nothing else is published. */
  lemma GainOfTenIsPublished(items: seq<DeployStatus>, n: nat)
    requires n < |items|
    ensures var before, after := Fold(items[..n]).published, Fold(items[..n + 1]).published;
      var last := if before == [] then 0 else before[|before| - 1].percentage;
      if items[n].Completed? || (exists i | 0 <= i < n :: items[i].Completed?) then after == before
      else
        var p := items[n].progress;
        -0x8000_0000 <= p.percentage - last < 0x8000_0000 ==>
          after == if p.percentage - last >= 10 then before + [p] else before
  {
    var head := items[..n];
    assert items[..n + 1][..n] == head;
    ComparesWithLastPublished(head);
    OnlyProgressSoFar(head);
    assert forall i | 0 <= i < n :: head[i] == items[i];
    hide Fold;
    OneMore(head, items[..n + 1]);
  }

  lemma OneMore(head: seq<DeployStatus>, items: seq<DeployStatus>)
    requires |items| == |head| + 1 && items[..|head|] == head
    ensures Fold(items) == Absorb(Fold(head), items[|head|])
  {
  }

  /** The fold is past a completion exactly when it has seen one. */
  lemma {:induction false} OnlyProgressSoFar(items: seq<DeployStatus>)
    ensures Fold(items).status.Progress? <==> forall i | 0 <= i < |items| :: items[i].Progress?
  {
    if items != [] {
      OnlyProgressSoFar(items[..|items| - 1]);
    }
  }

  /** Published progress rises by at least ten points each time, except through wrap-around. */
  lemma {:induction false} PublishedProgressRises(items: seq<DeployStatus>)
    ensures RisesByTen(Fold(items).published) <==> forall i | 0 <= i < |items| :: !Slips(items, i)
  {
    if items != [] {
      var n := |items| - 1;
      var head := items[..n];
      PublishedProgressRises(head);
      ComparesWithLastPublished(head);
      forall i | 0 <= i < n
        ensures Slips(items, i) == Slips(head, i)
      {
        assert head[..i] == items[..i];
      }
      var f := Fold(head);
      if items[n].Progress? {
        RisesWithLast(f.published, items[n].progress);
      }
      assert Slips(items, n) || !Slips(items, n);
    }
  }

  /** RAUC's percentages, cut off below 100, give at most nine progress reports. */
  lemma {:induction false} AtMostNineReports(items: seq<DeployStatus>)
    requires forall s <- items :: s.Progress? ==> 0 <= s.progress.percentage < 100
    ensures var p := Fold(items).published;
      |p| <= 9 && RisesByTen(p) && (p != [] ==> p[|p| - 1].percentage >= 10 * |p|)
  {
    if items != [] {
      var head, last := items[..|items| - 1], items[|items| - 1];
      AtMostNineReports(head);
      ComparesWithLastPublished(head);
      FoldPercentages(head);
      if last.Progress? {
        RisesWithLast(Fold(head).published, last.progress);
      }
    }
  }

  lemma {:induction false} FoldPercentages(items: seq<DeployStatus>)
    requires forall s <- items :: s.Progress? ==> 0 <= s.progress.percentage < 100
    ensures forall p <- Fold(items).published :: 0 <= p.percentage < 100
    ensures Fold(items).status.Progress? ==> 0 <= Fold(items).status.progress.percentage < 100
  {
    if items != [] {
      FoldPercentages(items[..|items| - 1]);
    }
  }

  lemma {:induction false} FoldStaysNonNegative(items: seq<DeployStatus>)
    requires forall s <- items | s.Progress? :: s.progress.percentage >= 0
    ensures Fold(items).status.Progress? ==> Fold(items).status.progress.percentage >= 0
  {
    if items != [] {
      FoldStaysNonNegative(items[..|items| - 1]);
    }
  }

  /** Percentages that are never negative never slip, however large they are; so what is published rises. */
  lemma NonNegativeNeverSlips(items: seq<DeployStatus>)
    requires forall s <- items | s.Progress? :: s.progress.percentage >= 0
    ensures forall i | 0 <= i < |items| :: !Slips(items, i)
    ensures RisesByTen(Fold(items).published)
  {
    forall i | 0 <= i < |items|
      ensures !Slips(items, i)
    {
      assert items[i] in items;
      FoldStaysNonNegative(items[..i]);
    }
    PublishedProgressRises(items);
  }

  /** The wrap-around is real: after 50%, the least 32-bit integer is published as a gain. */
  lemma WrapAroundIsPublished()
    ensures var items := [
        Progress(DeployProgress(50, "")), Progress(DeployProgress(-0x8000_0000, ""))];
      Slips(items, 1) && !RisesByTen(Fold(items).published)
  {
    var items := [Progress(DeployProgress(50, "")), Progress(DeployProgress(-0x8000_0000, ""))];
    assert items[..1] == [items[0]] && items[..1][..0] == [];
    assert Fold([]) == Folded(Progress(NO_PROGRESS), []);
    assert Fold(items[..1]) == Folded(items[0], [DeployProgress(50, "")]);
    assert items[..|items| - 1] == items[..1];
    var published := Fold(items).published;
    assert published == [DeployProgress(50, ""), DeployProgress(-0x8000_0000, "")];
    assert Gain(published, 1) < 0;
  }
}
