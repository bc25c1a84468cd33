/**
 * The upload page (pages/upload.js): file selection, transfer progress, the
 * status poll that follows the transfer, and what the page shows.
 *
 * The four calls into the site's API and the browser navigation are recorded
 * as `Call`s in the order they are made. The key the API issues, the progress
 * events of the transfer and the status records the poll reads are inputs.
 */
module UploadPage {
  import opened Wrappers

  /** The chosen file: only its declared MIME type matters here. */
  datatype File = File(name: string, mimeType: string)

  /** A status record read from the API; `progress` is a fraction, possibly absent. */
  datatype Status = Status(task: string, progress: Option<real>)

  /** One report of the transfer: bytes sent so far out of the total. */
  datatype ProgressEvent = ProgressEvent(loaded: nat, total: nat)

  /** Calls made on the API and the browser, in order. */
  datatype Call = RequestGifKey | UploadFile(id: string) | CreateGif(id: string) | GetStatus(id: string) | Navigate(url: string)

  /** The three panels the left cell of the page may show. */
  datatype View = Placeholder | Preview | ProgressCircle

  /** What the preview panel draws for the chosen file. */
  datatype PreviewElement = Img | Video

  const GifMimeType := "image/gif"
  const InitialStatus := Status("uploading", None)

  // ----- transfer progress -----

  /** `Math.floor(loaded * 100 / total)`. */
  function FloorPercent(loaded: nat, total: nat): (f: int)
    requires total > 0
    ensures f * total <= loaded * 100 < (f + 1) * total
  {
    (loaded * 100) / total
  }

  /** The progress callback: the new percentage, unless the one shown is larger. */
  function TransferPercent(prev: real, e: ProgressEvent): (r: real)
    requires e.total > 0
    ensures r >= prev && r >= FloorPercent(e.loaded, e.total) as real
    ensures r == prev || r == FloorPercent(e.loaded, e.total) as real
  {
    var f := FloorPercent(e.loaded, e.total);
    if prev > f as real then prev else f as real
  }

  predicate ValidEvents(events: seq<ProgressEvent>) {
    forall i :: 0 <= i < |events| ==> events[i].total > 0
  }

  /** The percentage after the callback has run for each of `events` in turn. */
  function FoldTransfer(prev: real, events: seq<ProgressEvent>): (r: real)
    requires ValidEvents(events)
    ensures r >= prev
    ensures events != [] ==> r >= FloorPercent(events[|events| - 1].loaded, events[|events| - 1].total) as real
    decreases |events|
  {
    if events == [] then prev
    else TransferPercent(FoldTransfer(prev, events[..|events| - 1]), events[|events| - 1])
  }

  /** The shown percentage never drops during the transfer: it only grows along the callbacks. */
  lemma {:induction false} TransferMonotone(prev: real, events: seq<ProgressEvent>, i: nat, j: nat)
    requires ValidEvents(events) && i <= j <= |events|
    ensures ValidEvents(events[..i]) && ValidEvents(events[..j])
    ensures prev <= FoldTransfer(prev, events[..i]) <= FoldTransfer(prev, events[..j])
    decreases j
  {
    assert ValidEvents(events[..i]) && ValidEvents(events[..j]);
    if j > 0 {
      var pre := events[..j][..j - 1];
      assert pre == events[..j - 1];
      if i < j {
        TransferMonotone(prev, events, i, j - 1);
      } else {
        TransferMonotone(prev, events, i - 1, j - 1);
      }
    }
  }

  /** A single callback stays at most 100 when the previous value did and `loaded <= total`. */
  lemma TransferBounded(prev: real, e: ProgressEvent)
    requires e.total > 0 && e.loaded <= e.total && prev <= 100.0
    ensures TransferPercent(prev, e) <= 100.0
  {
  }

  /** If no event reports more bytes than the total, the transfer never shows more than 100%. */
  lemma {:induction false} FoldTransferBounded(prev: real, events: seq<ProgressEvent>)
    requires ValidEvents(events) && prev <= 100.0
    requires forall i :: 0 <= i < |events| ==> events[i].loaded <= events[i].total
    ensures FoldTransfer(prev, events) <= 100.0
    decreases |events|
  {
    if events != [] {
      var n := |events| - 1;
      FoldTransferBounded(prev, events[..n]);
      TransferBounded(FoldTransfer(prev, events[..n]), events[n]);
    }
  }

  // ----- status poll -----

  /** `status.progress || 0.01`: an absent or zero progress reads as 0.01. */
  function EffectiveProgress(s: Status): (p: real)
    ensures p != 0.0
    ensures s.progress.Some? && s.progress.value != 0.0 ==> p == s.progress.value
    ensures s.progress.None? || s.progress.value == 0.0 ==> p == 0.01
  {
    match s.progress
    case Some(v) => if v != 0.0 then v else 0.01
    case None => 0.01
  }

  /** The percentage one tick shows: the progress times 100, capped at 100. */
  function TickPercent(s: Status): (r: real)
    ensures r <= 100.0 && r <= EffectiveProgress(s) * 100.0
    ensures r == 100.0 || r == EffectiveProgress(s) * 100.0
  {
    var progress := EffectiveProgress(s) * 100.0;
    if progress > 100.0 then 100.0 else progress
  }

  /** A tick never shows 0%, and shows a positive value whenever the reported progress is not negative. */
  lemma TickNeverZero(s: Status)
    ensures TickPercent(s) != 0.0
    ensures s.progress.None? || s.progress.value >= 0.0 ==> TickPercent(s) > 0.0
  {
  }

  /** Unlike the transfer callback, a tick can lower the percentage shown. */
  lemma TickMayDecrease()
    ensures TickPercent(Status("encoding", Some(0.1))) < TransferPercent(0.0, ProgressEvent(80, 100))
  {
    assert FloorPercent(80, 100) == 80;
  }

  /** Polling stops on these tasks. */
  predicate IsTerminal(task: string) {
    task == "complete" || task == "error"
  }

  /** The calls one tick makes: the status request, then the redirect home on `complete`. */
  function TickCalls(id: string, s: Status): (calls: seq<Call>)
    ensures 1 <= |calls| <= 2 && calls[0] == GetStatus(id)
    ensures Navigate("/") in calls <==> s.task == "complete"
    ensures |calls| == 2 <==> s.task == "complete"
  {
    [GetStatus(id)] + (if s.task == "complete" then [Navigate("/")] else [])
  }

  /** The number of ticks that run on the status sequence `statuses`: up to and including the first terminal one. */
  function PollTicks(statuses: seq<Status>): (n: nat)
    ensures n <= |statuses| && (statuses != [] ==> n > 0)
    ensures forall i :: 0 <= i < n - 1 ==> !IsTerminal(statuses[i].task)
    ensures 0 < n < |statuses| ==> IsTerminal(statuses[n - 1].task)
    decreases |statuses|
  {
    if statuses == [] then 0
    else if IsTerminal(statuses[0].task) then 1
    else 1 + PollTicks(statuses[1..])
  }

  /** The calls the ticks over `ticked` make, in order. */
  function PollCalls(id: string, ticked: seq<Status>): (calls: seq<Call>)
    ensures |ticked| <= |calls| <= 2 * |ticked|
    ensures ticked != [] ==> calls[0] == GetStatus(id)
    ensures forall c :: c in calls ==> c == GetStatus(id) || c == Navigate("/")
    decreases |ticked|
  {
    if ticked == [] then []
    else PollCalls(id, ticked[..|ticked| - 1]) + TickCalls(id, ticked[|ticked| - 1])
  }

  /** How many redirects home `calls` holds. */
  function Navigations(calls: seq<Call>): nat
    decreases |calls|
  {
    if calls == [] then 0
    else Navigations(calls[..|calls| - 1]) + (if calls[|calls| - 1] == Navigate("/") then 1 else 0)
  }

  lemma {:induction false} NavigationsAppend(a: seq<Call>, b: seq<Call>)
    ensures Navigations(a + b) == Navigations(a) + Navigations(b)
    decreases |b|
  {
    if b == [] {
      assert a + b == a;
    } else {
      var n := |b| - 1;
      assert (a + b)[..|a + b| - 1] == a + b[..n];
      NavigationsAppend(a, b[..n]);
    }
  }

  lemma {:induction false} NoNavigationBeforeStop(id: string, ticked: seq<Status>)
    requires forall i :: 0 <= i < |ticked| ==> !IsTerminal(ticked[i].task)
    ensures Navigations(PollCalls(id, ticked)) == 0
    decreases |ticked|
  {
    if ticked != [] {
      var n := |ticked| - 1;
      NoNavigationBeforeStop(id, ticked[..n]);
      NavigationsAppend(PollCalls(id, ticked[..n]), TickCalls(id, ticked[n]));
      assert Navigations([GetStatus(id)]) == 0;
    }
  }

  /**
   * The poll redirects home once if it stopped on `complete`, and never
   * otherwise: a stop on `error`, or a poll still running, makes no redirect.
   */
  lemma PollNavigatesOnlyOnComplete(id: string, statuses: seq<Status>)
    ensures var n := PollTicks(statuses);
      Navigations(PollCalls(id, statuses[..n])) == if n > 0 && statuses[n - 1].task == "complete" then 1 else 0
  {
    var n := PollTicks(statuses);
    if n > 0 {
      var ticked := statuses[..n];
      assert ticked[..n - 1] == statuses[..n - 1];
      NoNavigationBeforeStop(id, statuses[..n - 1]);
      NavigationsAppend(PollCalls(id, statuses[..n - 1]), TickCalls(id, statuses[n - 1]));
      assert Navigations([GetStatus(id)]) == 0;
      assert [GetStatus(id)] + [Navigate("/")] == [GetStatus(id), Navigate("/")];
      assert Navigations([GetStatus(id), Navigate("/")]) == 1 by {
        assert [GetStatus(id), Navigate("/")][..1] == [GetStatus(id)];
      }
    }
  }

  /** The three status records of a completed upload: the poll stops on the third and redirects once. */
  lemma CompletedUploadExample(id: string)
    ensures var statuses := [Status("uploading", Some(0.1)), Status("uploading", Some(0.6)), Status("complete", None)];
      PollTicks(statuses) == 3 && Navigations(PollCalls(id, statuses)) == 1
  {
    var statuses := [Status("uploading", Some(0.1)), Status("uploading", Some(0.6)), Status("complete", None)];
    PollNavigatesOnlyOnComplete(id, statuses);
    assert statuses[..3] == statuses;
  }

  /** A status sequence whose first terminal record is its last, an `error`: the poll reads every record and never redirects. */
  lemma ErrorStopsWithoutRedirect(id: string, statuses: seq<Status>)
    requires statuses != [] && statuses[|statuses| - 1].task == "error"
    requires forall i :: 0 <= i < |statuses| - 1 ==> !IsTerminal(statuses[i].task)
    ensures PollTicks(statuses) == |statuses|
    ensures Navigations(PollCalls(id, statuses)) == 0
  {
    PollNavigatesOnlyOnComplete(id, statuses);
    assert statuses[..|statuses|] == statuses;
  }

  // ----- render -----

  /** The panels `render` draws, from whether a file is chosen and the percentage. */
  function Views(hasFile: bool, percent: real): (vs: set<View>)
    ensures Placeholder in vs <==> !hasFile
    ensures Preview in vs <==> hasFile && percent == 0.0
    ensures ProgressCircle in vs <==> percent > 0.0
  {
    (if !hasFile then {Placeholder} else {})
    + (if hasFile && percent == 0.0 then {Preview} else {})
    + (if percent > 0.0 then {ProgressCircle} else {})
  }

  /**
   * With no file the placeholder shows; with a file the preview shows at 0% and
   * the progress circle above 0%; the placeholder and the preview, and the
   * preview and the circle, are never drawn together.
   */
  lemma ViewSelection(hasFile: bool, percent: real)
    ensures !hasFile && percent > 0.0 ==> Views(hasFile, percent) == {Placeholder, ProgressCircle}
    ensures !hasFile && percent <= 0.0 ==> Views(hasFile, percent) == {Placeholder}
    ensures hasFile && percent == 0.0 ==> Views(hasFile, percent) == {Preview}
    ensures hasFile && percent > 0.0 ==> Views(hasFile, percent) == {ProgressCircle}
    ensures !(Placeholder in Views(hasFile, percent) && Preview in Views(hasFile, percent))
    ensures !(Preview in Views(hasFile, percent) && ProgressCircle in Views(hasFile, percent))
  {
  }

  /** The element inside the preview panel. */
  function PreviewElements(isGif: bool, isVideo: bool): (els: set<PreviewElement>)
    ensures Img in els <==> isGif
    ensures Video in els <==> isVideo
    ensures isGif != isVideo ==> |els| == 1
  {
    (if isGif then {Img} else {}) + (if isVideo then {Video} else {})
  }

  /** The status label: `NotFoundo` reads as `preparing encoding`, every other task verbatim. */
  function StatusLabel(task: string): (r: string)
    ensures task == "NotFoundo" ==> r == "preparing encoding"
    ensures task != "NotFoundo" ==> r == task
    ensures r == "preparing encoding" ==> task == "NotFoundo" || task == "preparing encoding"
  {
    if task == "NotFoundo" then "preparing encoding" else task
  }

  /** Two tasks share a label only when they are equal or are `NotFoundo` and `preparing encoding`. */
  lemma StatusLabelCollisions(a: string, b: string)
    ensures StatusLabel(a) == StatusLabel(b) ==>
      a == b || (a == "NotFoundo" && b == "preparing encoding") || (a == "preparing encoding" && b == "NotFoundo")
  {
  }

  // ----- the page -----

  class Upload {
    var file: Option<File>
    var isGif: bool
    var isVideo: bool
    var preview: bool
    var percentCompleted: real
    var status: Status
    var calls: seq<Call>

    /** Exactly one of the two kinds is set, and nothing ever sets `preview`. */
    ghost predicate Valid()
      reads this
    {
      isGif != isVideo && !preview
    }

    function CurrentViews(): set<View>
      reads this
    {
      Views(file.Some?, percentCompleted)
    }

    constructor()
      ensures file == None && isGif && !isVideo && !preview
      ensures percentCompleted == 0.0 && status == InitialStatus && calls == []
      ensures Valid() && CurrentViews() == {Placeholder}
    {
      file := None;
      isGif := true;
      isVideo := false;
      preview := false;
      percentCompleted := 0.0;
      status := InitialStatus;
      calls := [];
      new;
      ViewSelection(false, 0.0);
    }

    /** The file input's `onChange`: record the file and classify it by exact MIME match. */
    method HandleChange(f: File)
      requires Valid()
      modifies this`file, this`isGif, this`isVideo, this`preview
      ensures Valid()
      ensures file == Some(f) && !preview
      ensures isGif <==> f.mimeType == GifMimeType
      ensures isVideo <==> f.mimeType != GifMimeType
      ensures PreviewElements(isGif, isVideo) == if f.mimeType == GifMimeType then {Img} else {Video}
    {
      var gif := f.mimeType == GifMimeType;
      file, isGif, isVideo, preview := Some(f), gif, !gif, false;
    }

    /** The transfer's progress callback. */
    method OnUploadProgress(e: ProgressEvent)
      requires Valid() && e.total > 0
      ensures Valid()
      modifies this`percentCompleted
      ensures percentCompleted == TransferPercent(old(percentCompleted), e)
      ensures percentCompleted >= old(percentCompleted)
    {
      var loaded := e.loaded * 100;
      var percent := loaded / e.total;
      percentCompleted := if percentCompleted > percent as real then percentCompleted else percent as real;
    }

    /** One interval tick: read the status, show its progress, stop on a terminal task and go home on `complete`. */
    method PollTick(id: string, s: Status) returns (stop: bool)
      requires Valid()
      ensures Valid()
      modifies this`status, this`percentCompleted, this`calls
      ensures status == s && percentCompleted == TickPercent(s)
      ensures stop <==> IsTerminal(s.task)
      ensures calls == old(calls) + TickCalls(id, s)
    {
      calls := calls + [GetStatus(id)];
      var progress := EffectiveProgress(s) * 100.0;
      status, percentCompleted := s, if progress > 100.0 then 100.0 else progress;
      stop := false;
      if s.task == "complete" || s.task == "error" {
        if s.task == "complete" {
          calls := calls + [Navigate("/")];
        }
        stop := true;
      }
    }

    /**
     * The interval: ticks over the status records the API returns, in order,
     * until one is terminal or the records run out.
     */
    method Poll(id: string, statuses: seq<Status>) returns (ticks: nat, stopped: bool)
      requires Valid()
      ensures Valid()
      modifies this`status, this`percentCompleted, this`calls
      ensures ticks == PollTicks(statuses)
      ensures stopped <==> ticks > 0 && IsTerminal(statuses[ticks - 1].task)
      ensures calls == old(calls) + PollCalls(id, statuses[..ticks])
      ensures ticks > 0 ==> status == statuses[ticks - 1] && percentCompleted == TickPercent(statuses[ticks - 1])
      ensures ticks == 0 ==> status == old(status) && percentCompleted == old(percentCompleted)
    {
      ticks, stopped := 0, false;
      while ticks < |statuses| && !stopped
        invariant ticks <= |statuses| && Valid()
        invariant forall i :: 0 <= i < ticks - 1 ==> !IsTerminal(statuses[i].task)
        invariant ticks > 0 ==> (stopped <==> IsTerminal(statuses[ticks - 1].task))
        invariant ticks == 0 ==> !stopped
        invariant calls == old(calls) + PollCalls(id, statuses[..ticks])
        invariant ticks > 0 ==> status == statuses[ticks - 1] && percentCompleted == TickPercent(statuses[ticks - 1])
        invariant ticks == 0 ==> status == old(status) && percentCompleted == old(percentCompleted)
      {
        assert statuses[..ticks + 1][..ticks] == statuses[..ticks];
        stopped := PollTick(id, statuses[ticks]);
        ticks := ticks + 1;
      }
    }

    /** The transfer: the upload call, then the callback for each progress event in turn. */
    method Transfer(id: string, events: seq<ProgressEvent>)
      requires Valid() && ValidEvents(events)
      ensures Valid()
      modifies this`percentCompleted, this`calls
      ensures calls == old(calls) + [UploadFile(id)]
      ensures percentCompleted == FoldTransfer(old(percentCompleted), events)
    {
      calls := calls + [UploadFile(id)];
      var i := 0;
      while i < |events|
        invariant i <= |events| && Valid()
        invariant percentCompleted == FoldTransfer(old(percentCompleted), events[..i])
        invariant calls == old(calls) + [UploadFile(id)]
      {
        assert events[..i + 1][..i] == events[..i];
        OnUploadProgress(events[i]);
        i := i + 1;
      }
      assert events[..i] == events;
    }

    /**
     * The upload button: request a key, transfer the file, create the gif, then
     * poll. `id` is the key the API issues.
     */
    method StartUpload(id: string, events: seq<ProgressEvent>, statuses: seq<Status>) returns (ticks: nat, stopped: bool)
      requires Valid() && ValidEvents(events)
      ensures Valid()
      modifies this`status, this`percentCompleted, this`calls
      ensures ticks == PollTicks(statuses)
      ensures calls == old(calls) + [RequestGifKey, UploadFile(id), CreateGif(id)] + PollCalls(id, statuses[..ticks])
      ensures stopped <==> ticks > 0 && IsTerminal(statuses[ticks - 1].task)
      ensures ticks > 0 ==> status == statuses[ticks - 1] && percentCompleted == TickPercent(statuses[ticks - 1])
      ensures ticks == 0 ==> status == old(status) && percentCompleted == FoldTransfer(old(percentCompleted), events)
    {
      calls := calls + [RequestGifKey];
      Transfer(id, events);
      calls := calls + [CreateGif(id)];
      ticks, stopped := Poll(id, statuses);
    }
  }
}
