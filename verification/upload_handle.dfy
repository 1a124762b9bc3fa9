/** `UploadHandle` of public/video-ui/src/services/UploadsApi.js as an
    event-driven state machine.

    The source walks the upload's parts through a chain of promises: for the
    first remaining part it asks for credentials, starts the S3 transfer,
    waits for it, commits the part passing the previous commit's `uploadUri`,
    and recurses on the remaining parts; `completeFn` runs when none remain
    and any rejection in the chain runs `errFn`. Here each settled promise is
    an `Event` delivered to `Step`, and each call the source makes (to the
    backend, to S3, or to a callback) is an `Effect`. The stage of the walk,
    implicit in which continuation is pending, is explicit in `Stage`. */
module UploadHandle {
  import opened Wrappers
  import opened Js
  import opened PandaClient
  import opened UploadsApi

  /** The step of the current part whose promise is pending. */
  datatype Phase = Crediting | Transferring | Committing

  /** `Failed(phase)` records which step's promise rejected. */
  datatype Stage = Idle | Active(phase: Phase) | Completed | Failed(phase: Phase)

  /** The fields of an `UploadHandle`. `current` is the index of the part being
      processed: the `parts` argument of the latest `uploadParts` call is
      `upload.parts[current..]`. `request` is the transfer last recorded in
      `this.request` (never reset), `uploadUri` the token of the last commit. */
  datatype Handle = Handle(
    upload: Upload,
    file: File,
    current: nat,
    stage: Stage,
    request: Option<TransferParams>,
    uploadUri: Option<string>)

  /** What the outside world delivers: the caller's `start`/`stop`, and the
      settling of the promises the walk waits on. */
  datatype Event =
    | Start
    | Stop
    | CredentialsIssued(credentials: Credentials)
    | CredentialsRefused(error: HttpError)
    | TransferProgress(loaded: int)
    | TransferFinished
    | TransferFailed(reason: string)
    | CommitAccepted(uploadUri: Option<string>)
    | CommitRefused(error: HttpError)

  /** The error `errFn` receives. */
  datatype Failure = Http(error: HttpError) | Storage(reason: string)

  /** The calls a step makes, in order. */
  datatype Effect =
    | RequestCredentials(uploadId: string, key: string)
    | BeginTransfer(params: TransferParams)
    | ReportProgress(bytes: int)
    | RequestCommit(uploadId: string, key: string, uploadUri: Option<string>)
    | RequestStop(uploadId: string)
    | AbortTransfer(params: TransferParams)
    | ReportComplete
    | ReportError(failure: Failure)

  datatype Transition = Transition(handle: Handle, effects: seq<Effect>)

  /** The shape every reachable handle has. */
  predicate Valid(h: Handle) {
    && h.current <= |h.upload.parts|
    && (h.stage.Idle? ==> h.current == 0)
    && (h.stage.Active? || h.stage.Failed? ==> h.current < |h.upload.parts|)
    && (h.stage.Completed? ==> h.current == |h.upload.parts|)
  }

  /** The constructor: no transfer recorded and the token `null`. */
  function New(upload: Upload, file: File): (h: Handle)
    ensures Valid(h) && h.stage == Idle
    ensures h.request.None? && h.uploadUri.None?
  {
    Handle(upload, file, 0, Idle, None, None)
  }

  /** `uploadParts(upload.parts[i..])`: ask for the credentials of part `i`,
      or report completion when no part remains. */
  function UploadParts(h: Handle, i: nat): (t: Transition)
    requires i <= |h.upload.parts|
    ensures Valid(t.handle) && t.handle.current == i
    ensures i < |h.upload.parts| ==> t.effects == [RequestCredentials(h.upload.id, h.upload.parts[i].key)]
    ensures i == |h.upload.parts| ==> t.effects == [ReportComplete] && t.handle.stage == Completed
  {
    if i < |h.upload.parts| then
      Transition(h.(current := i, stage := Active(Crediting)),
                 [RequestCredentials(h.upload.id, h.upload.parts[i].key)])
    else
      Transition(h.(current := i, stage := Completed), [ReportComplete])
  }

  /** The `catch` of the chain: the promise of `phase` rejected. */
  function Fail(h: Handle, phase: Phase, failure: Failure): (t: Transition)
    ensures h.stage == Active(phase) <==> t.effects == [ReportError(failure)]
    ensures h.stage == Active(phase) ==> t.handle == h.(stage := Failed(phase))
    ensures h.stage != Active(phase) ==> t.handle == h && t.effects == []
  {
    if h.stage == Active(phase) then Transition(h.(stage := Failed(phase)), [ReportError(failure)])
    else Transition(h, [])
  }

  /** `stop`: always abandon the upload at the backend, and abort the recorded
      transfer if there is one. No state changes. */
  function StopEffects(h: Handle): (effects: seq<Effect>)
    ensures |effects| > 0 && effects[0] == RequestStop(h.upload.id)
    ensures h.request.Some? ==> AbortTransfer(h.request.value) in effects
    ensures forall k :: 0 < k < |effects| ==> h.request.Some? && effects[k] == AbortTransfer(h.request.value)
  {
    [RequestStop(h.upload.id)] + (if h.request.Some? then [AbortTransfer(h.request.value)] else [])
  }

  /** Deliver one event. A promise the chain no longer waits on cannot
      deliver its settlement, so such events leave the handle unchanged.
      A progress event is different: the `httpUploadProgress` listener stays
      attached to every transfer started, so dropping progress outside the
      transfer stage assumes S3 reports no progress once its transfer has
      settled. */
  function Step(h: Handle, e: Event): (t: Transition)
    requires Valid(h)
    ensures Valid(t.handle)
    ensures t.handle.upload == h.upload && t.handle.file == h.file
    ensures h.current <= t.handle.current
    ensures !e.Stop? ==> |t.effects| <= 1
  {
    var parts := h.upload.parts;
    match e
    case Start =>
      if h.stage.Idle? then UploadParts(h, 0) else Transition(h, [])
    case Stop =>
      Transition(h, StopEffects(h))
    case CredentialsIssued(credentials) =>
      if h.stage == Active(Crediting) then
        var params := TransferFor(h.upload, parts[h.current], h.file, credentials);
        Transition(h.(stage := Active(Transferring), request := Some(params)), [BeginTransfer(params)])
      else Transition(h, [])
    case CredentialsRefused(error) =>
      Fail(h, Crediting, Http(error))
    case TransferProgress(loaded) =>
      if h.stage == Active(Transferring) then
        Transition(h, [ReportProgress(parts[h.current].start + loaded)])
      else Transition(h, [])
    case TransferFinished =>
      if h.stage == Active(Transferring) then
        Transition(h.(stage := Active(Committing)),
                   [RequestCommit(h.upload.id, parts[h.current].key, h.uploadUri)])
      else Transition(h, [])
    case TransferFailed(reason) =>
      Fail(h, Transferring, Storage(reason))
    case CommitAccepted(uploadUri) =>
      if h.stage == Active(Committing) then UploadParts(h.(uploadUri := uploadUri), h.current + 1)
      else Transition(h, [])
    case CommitRefused(error) =>
      Fail(h, Committing, Http(error))
  }

  /** Deliver a sequence of events; the effects are concatenated in order. */
  function Run(h: Handle, events: seq<Event>): (t: Transition)
    requires Valid(h)
    ensures Valid(t.handle)
    ensures t.handle.upload == h.upload && t.handle.file == h.file
    ensures h.current <= t.handle.current
    decreases |events|
  {
    if events == [] then Transition(h, [])
    else
      var before := Run(h, events[..|events| - 1]);
      var last := Step(before.handle, events[|events| - 1]);
      Transition(last.handle, before.effects + last.effects)
  }

  // ---------------------------------------------------------------------
  // Projections of the effect log
  // ---------------------------------------------------------------------

  /** The concatenation of `f` over the effects, in order. */
  function Collect<T>(effects: seq<Effect>, f: Effect -> seq<T>): seq<T>
    decreases |effects|
  {
    if effects == [] then [] else f(effects[0]) + Collect(effects[1..], f)
  }

  lemma {:induction false} CollectAppend<T>(a: seq<Effect>, b: seq<Effect>, f: Effect -> seq<T>)
    ensures Collect(a + b, f) == Collect(a, f) + Collect(b, f)
    decreases |a|
  {
    if a == [] {
      assert a + b == b;
    } else {
      assert (a + b)[1..] == a[1..] + b;
      CollectAppend(a[1..], b, f);
    }
  }

  lemma CollectOne<T>(e: Effect, f: Effect -> seq<T>)
    ensures Collect([e], f) == f(e)
  {
    assert [e][1..] == [];
  }

  /** `stop`'s calls, seen through any projection. */
  lemma CollectStop<T>(h: Handle, f: Effect -> seq<T>)
    ensures Collect(StopEffects(h), f)
            == f(RequestStop(h.upload.id)) + (if h.request.Some? then f(AbortTransfer(h.request.value)) else [])
  {
    CollectOne(RequestStop(h.upload.id), f);
    if h.request.Some? {
      CollectAppend([RequestStop(h.upload.id)], [AbortTransfer(h.request.value)], f);
      CollectOne(AbortTransfer(h.request.value), f);
    }
  }

  /** The steps of the walk, ignoring progress and `stop`. */
  datatype Milestone =
    | Asked(uploadId: string, key: string)
    | Transferred(key: string, body: ByteRange)
    | Committed(uploadId: string, key: string)
    | Completion
    | Error

  function MilestoneOf(e: Effect): seq<Milestone> {
    match e
    case RequestCredentials(id, key) => [Asked(id, key)]
    case BeginTransfer(params) => [Transferred(params.key, params.body)]
    case RequestCommit(id, key, _) => [Committed(id, key)]
    case ReportComplete => [Completion]
    case ReportError(_) => [Error]
    case _ => []
  }

  function Milestones(effects: seq<Effect>): seq<Milestone> {
    Collect(effects, MilestoneOf)
  }

  /** The three steps of part `j`, in the order the source takes them. */
  function PartWalk(u: Upload, f: File, j: nat): seq<Milestone>
    requires j < |u.parts|
  {
    var p := u.parts[j];
    [Asked(u.id, p.key), Transferred(p.key, Slice(f, p.start, p.end)), Committed(u.id, p.key)]
  }

  /** The steps of parts `0 .. n-1`, each part finished before the next starts. */
  function Walked(u: Upload, f: File, n: nat): seq<Milestone>
    requires n <= |u.parts|
  {
    if n == 0 then [] else Walked(u, f, n - 1) + PartWalk(u, f, n - 1)
  }

  function Reached(phase: Phase): nat {
    match phase
    case Crediting => 1
    case Transferring => 2
    case Committing => 3
  }

  /** The milestones a handle in this state has produced since `New`. */
  function Expected(h: Handle): seq<Milestone>
    requires Valid(h)
  {
    var u := h.upload;
    var f := h.file;
    match h.stage
    case Idle => []
    case Active(phase) => Walked(u, f, h.current) + PartWalk(u, f, h.current)[..Reached(phase)]
    case Completed => Walked(u, f, h.current) + [Completion]
    case Failed(phase) => Walked(u, f, h.current) + PartWalk(u, f, h.current)[..Reached(phase)] + [Error]
  }

  predicate Terminal(m: Milestone) {
    m.Completion? || m.Error?
  }

  // ---------------------------------------------------------------------
  // Ordering, completion and failure
  // ---------------------------------------------------------------------

  /** Each step extends the milestone log exactly as the walk prescribes. */
  lemma StepExtendsWalk(h: Handle, e: Event)
    requires Valid(h)
    ensures Expected(h) + Milestones(Step(h, e).effects) == Expected(Step(h, e).handle)
  {
    if e.Stop? {
      StopExtendsWalk(h);
    } else if e.CommitAccepted? {
      CommitExtendsWalk(h, e.uploadUri);
    } else {
      AdvanceExtendsWalk(h, e);
    }
  }

  /** `stop` adds no milestone. */
  lemma StopExtendsWalk(h: Handle)
    requires Valid(h)
    ensures Expected(h) + Milestones(Step(h, Stop).effects) == Expected(Step(h, Stop).handle)
  {
    CollectStop(h, MilestoneOf);
    assert Step(h, Stop).handle == h;
  }

  /** A commit that took effect finishes the current part. */
  lemma CommitExtendsWalk(h: Handle, uploadUri: Option<string>)
    requires Valid(h)
    ensures Expected(h) + Milestones(Step(h, CommitAccepted(uploadUri)).effects)
            == Expected(Step(h, CommitAccepted(uploadUri)).handle)
  {
    var t := Step(h, CommitAccepted(uploadUri));
    if h.stage == Active(Committing) {
      CollectOne(t.effects[0], MilestoneOf);
      ExpectedWhileCommitting(h);
      if h.current + 1 < |h.upload.parts| {
        NextPartAsked(h, uploadUri);
      } else {
        LastPartCompletes(h, uploadUri);
      }
    } else {
      assert t == Transition(h, []);
    }
  }

  /** While the current part's commit is pending, all its steps but the
      commit's answer are in the log. */
  lemma ExpectedWhileCommitting(h: Handle)
    requires Valid(h) && h.stage == Active(Committing)
    ensures Expected(h) == Walked(h.upload, h.file, h.current + 1)
  {
    var u := h.upload;
    var f := h.file;
    var i := h.current;
    assert PartWalk(u, f, i)[..3] == PartWalk(u, f, i);
  }

  lemma NextPartAsked(h: Handle, uploadUri: Option<string>)
    requires Valid(h) && h.stage == Active(Committing) && h.current + 1 < |h.upload.parts|
    ensures var t := Step(h, CommitAccepted(uploadUri));
            && t.effects == [RequestCredentials(h.upload.id, h.upload.parts[h.current + 1].key)]
            && Expected(t.handle) == Walked(h.upload, h.file, h.current + 1) + [Asked(h.upload.id, h.upload.parts[h.current + 1].key)]
  {
  }

  lemma LastPartCompletes(h: Handle, uploadUri: Option<string>)
    requires Valid(h) && h.stage == Active(Committing) && h.current + 1 == |h.upload.parts|
    ensures var t := Step(h, CommitAccepted(uploadUri));
            && t.effects == [ReportComplete]
            && Expected(t.handle) == Walked(h.upload, h.file, h.current + 1) + [Completion]
  {
  }

  /** Every event other than `stop` and a commit's success emits at most the
      one milestone that the stage it moves to adds. */
  lemma AdvanceExtendsWalk(h: Handle, e: Event)
    requires Valid(h) && !e.Stop? && !e.CommitAccepted?
    ensures Expected(h) + Milestones(Step(h, e).effects) == Expected(Step(h, e).handle)
  {
    var t := Step(h, e);
    if t.effects != [] {
      CollectOne(t.effects[0], MilestoneOf);
      assert t.effects == [t.effects[0]];
    }
    if e.CredentialsIssued? || e.CredentialsRefused? {
      CreditingExtendsWalk(h, e);
    } else if e.TransferProgress? || e.TransferFinished? || e.TransferFailed? {
      TransferringExtendsWalk(h, e);
    }
  }

  lemma CreditingExtendsWalk(h: Handle, e: Event)
    requires Valid(h) && (e.CredentialsIssued? || e.CredentialsRefused?)
    ensures var t := Step(h, e);
            Expected(h) + (if t.effects == [] then [] else MilestoneOf(t.effects[0])) == Expected(t.handle)
  {
  }

  lemma TransferringExtendsWalk(h: Handle, e: Event)
    requires Valid(h) && (e.TransferProgress? || e.TransferFinished? || e.TransferFailed?)
    ensures var t := Step(h, e);
            Expected(h) + (if t.effects == [] then [] else MilestoneOf(t.effects[0])) == Expected(t.handle)
  {
  }

  /** From any valid handle, the log a run produces is what the walk prescribes. */
  lemma {:induction false} RunExtendsWalk(h: Handle, events: seq<Event>)
    requires Valid(h)
    ensures Expected(h) + Milestones(Run(h, events).effects) == Expected(Run(h, events).handle)
    decreases |events|
  {
    if events != [] {
      var init := events[..|events| - 1];
      RunExtendsWalk(h, init);
      StepExtendsWalk(Run(h, init).handle, events[|events| - 1]);
      MilestonesOfLast(h, events);
    }
  }

  /** The milestones of a run are those of all but its last event, followed
      by those of the last event's step. */
  lemma {:induction false} MilestonesOfLast(h: Handle, events: seq<Event>)
    requires Valid(h) && events != []
    ensures var before := Run(h, events[..|events| - 1]);
            var last := Step(before.handle, events[|events| - 1]);
            && Run(h, events).handle == last.handle
            && Milestones(Run(h, events).effects) == Milestones(before.effects) + Milestones(last.effects)
  {
    var before := Run(h, events[..|events| - 1]);
    var last := Step(before.handle, events[|events| - 1]);
    assert Run(h, events) == Transition(last.handle, before.effects + last.effects);
    CollectAppend(before.effects, last.effects, MilestoneOf);
  }

  /** Parts are processed strictly in list order, one at a time: whatever
      events arrive, the calls made so far are, for each earlier part in turn,
      its credential request, its transfer of exactly its byte range and its
      commit; then a prefix of the same steps for the current part; then at
      most one report, which ends the log. */
  lemma PartsInOrder(u: Upload, f: File, events: seq<Event>)
    ensures var t := Run(New(u, f), events);
            Milestones(t.effects) == Expected(t.handle)
  {
    RunExtendsWalk(New(u, f), events);
  }

  lemma {:induction false} WalkedHasNoReports(u: Upload, f: File, n: nat)
    requires n <= |u.parts|
    ensures forall k :: 0 <= k < |Walked(u, f, n)| ==> !Terminal(Walked(u, f, n)[k])
  {
    if n > 0 {
      WalkedHasNoReports(u, f, n - 1);
    }
  }

  /** `completeFn` and `errFn` are called at most once between them, as the
      last thing the walk does; `completeFn` only once every part has been
      credentialed, transferred and committed in order, and `errFn` only when
      the walk has failed. */
  lemma ReportsEndTheWalk(u: Upload, f: File, events: seq<Event>)
    ensures var t := Run(New(u, f), events);
            var m := Milestones(t.effects);
            && (forall k :: 0 <= k < |m| && Terminal(m[k]) ==> k == |m| - 1)
            && (Completion in m <==> t.handle.stage.Completed?)
            && (Completion in m ==> m == Walked(u, f, |u.parts|) + [Completion])
            && (Error in m <==> t.handle.stage.Failed?)
  {
    var t := Run(New(u, f), events);
    PartsInOrder(u, f, events);
    var h := t.handle;
    WalkedHasNoReports(u, f, h.current);
    if h.stage.Active? || h.stage.Failed? {
      var w := PartWalk(u, f, h.current)[..Reached(h.stage.phase)];
      assert forall k :: 0 <= k < |w| ==> !Terminal(w[k]);
    }
  }

  /** Conversely, an upload with parts whose every commit was accepted has
      reported completion. */
  lemma AllAcceptedCompletes(u: Upload, f: File, events: seq<Event>)
    requires |u.parts| > 0
    requires |AcceptedUris(New(u, f), events)| == |u.parts|
    ensures Completion in Milestones(Run(New(u, f), events).effects)
  {
    TokenCounts(u, f, events);
    ReportsEndTheWalk(u, f, events);
  }

  /** Once completed or failed, the walk is over: no later event leads to a
      credential request, transfer, commit or report. */
  lemma {:induction false} TerminalIsFinal(h: Handle, events: seq<Event>)
    requires Valid(h) && (h.stage.Completed? || h.stage.Failed?)
    ensures Run(h, events).handle.stage == h.stage
    ensures Milestones(Run(h, events).effects) == []
    decreases |events|
  {
    if events != [] {
      var init := events[..|events| - 1];
      TerminalIsFinal(h, init);
      RunExtendsWalk(h, events);
      RunExtendsWalk(h, init);
    }
  }

  /** An upload without parts completes as soon as it starts, with no
      credential request, transfer or commit. */
  lemma EmptyUploadCompletesAtOnce(u: Upload, f: File, events: seq<Event>)
    requires |u.parts| == 0
    ensures Run(New(u, f), [Start]).effects == [ReportComplete]
    ensures Milestones(Run(New(u, f), events).effects) == []
            || Milestones(Run(New(u, f), events).effects) == [Completion]
  {
    var h := New(u, f);
    assert [Start][..0] == [];
    assert Run(h, [Start]).effects == [] + Step(h, Start).effects;
    assert Step(h, Start).effects == [ReportComplete];
    PartsInOrder(u, f, events);
    var t := Run(h, events);
    assert Walked(u, f, 0) == [];
    if t.handle.stage.Completed? {
      assert Expected(t.handle) == [] + [Completion];
    }
  }

  /** A failed credential request, transfer or commit reports the error once
      and starts no later part. */
  lemma FailureStopsTheWalk(u: Upload, f: File, events: seq<Event>, later: seq<Event>)
    requires Run(New(u, f), events).handle.stage.Failed?
    ensures |Milestones(Run(New(u, f), events).effects)| > 0
    ensures var m := Milestones(Run(New(u, f), events).effects);
            m[|m| - 1] == Error
    ensures Milestones(Run(Run(New(u, f), events).handle, later).effects) == []
  {
    PartsInOrder(u, f, events);
    TerminalIsFinal(Run(New(u, f), events).handle, later);
  }

  // ---------------------------------------------------------------------
  // Token threading
  // ---------------------------------------------------------------------

  /** The tokens of the commits that took effect, in order. */
  function AcceptedUris(h: Handle, events: seq<Event>): seq<Option<string>>
    requires Valid(h)
    decreases |events|
  {
    if events == [] then []
    else
      var init := events[..|events| - 1];
      var e := events[|events| - 1];
      AcceptedUris(h, init)
        + (if e.CommitAccepted? && Run(h, init).handle.stage == Active(Committing) then [e.uploadUri] else [])
  }

  function CommitUriOf(e: Effect): seq<Option<string>> {
    if e.RequestCommit? then [e.uploadUri] else []
  }

  /** The `uploadUri` argument of every `completePart` call, in order. */
  function CommitUris(effects: seq<Effect>): seq<Option<string>> {
    Collect(effects, CommitUriOf)
  }

  predicate AwaitingCommit(s: Stage) {
    s == Active(Committing) || s == Failed(Committing)
  }

  /** One step's effect on the handle fields the threading and progress
      proofs follow. */
  lemma StepState(h: Handle, e: Event)
    requires Valid(h)
    ensures var t := Step(h, e);
            var accepted := e.CommitAccepted? && h.stage == Active(Committing);
            && t.handle.current == (if accepted then h.current + 1 else h.current)
            && t.handle.uploadUri == (if accepted then e.uploadUri else h.uploadUri)
            && (AwaitingCommit(t.handle.stage)
                <==> (AwaitingCommit(h.stage) && !accepted) || (e.TransferFinished? && h.stage == Active(Transferring)))
            && (e.CredentialsIssued? && h.stage == Active(Crediting) ==> t.handle.request.Some?)
            && (!(e.CredentialsIssued? && h.stage == Active(Crediting)) ==> t.handle.request == h.request)
  {
  }

  /** The tokens one step passes to `completePart`. */
  lemma StepCommitUris(h: Handle, e: Event)
    requires Valid(h)
    ensures CommitUris(Step(h, e).effects)
            == (if e.TransferFinished? && h.stage == Active(Transferring) then [h.uploadUri] else [])
  {
    var t := Step(h, e);
    if e.Stop? {
      CollectStop(h, CommitUriOf);
    } else if t.effects != [] {
      CollectOne(t.effects[0], CommitUriOf);
    }
  }

  /** The transfers one step starts. */
  lemma StepTransfers(h: Handle, e: Event)
    requires Valid(h)
    ensures Transfers(Step(h, e).effects)
            == (if e.CredentialsIssued? && h.stage == Active(Crediting) then [Step(h, e).handle.request.value] else [])
  {
    var t := Step(h, e);
    if e.Stop? {
      CollectStop(h, TransferOf);
    } else if t.effects != [] {
      CollectOne(t.effects[0], TransferOf);
    }
  }

  /** The progress values one step reports. */
  lemma StepProgress(h: Handle, e: Event)
    requires Valid(h)
    ensures Progress(Step(h, e).effects)
            == (if e.TransferProgress? && h.stage == Active(Transferring)
                then [h.upload.parts[h.current].start + e.loaded] else [])
  {
    var t := Step(h, e);
    if e.Stop? {
      CollectStop(h, ProgressOf);
    } else if t.effects != [] {
      CollectOne(t.effects[0], ProgressOf);
    }
  }

  /** `this.uploadUri` always holds the latest accepted token, one token is
      accepted per finished part, and one commit more than accepted has been
      sent while a commit is pending or has failed. */
  lemma {:induction false} TokenCounts(u: Upload, f: File, events: seq<Event>)
    ensures var t := Run(New(u, f), events);
            var sent := CommitUris(t.effects);
            var got := AcceptedUris(New(u, f), events);
            && |got| == t.handle.current
            && t.handle.uploadUri == (if got == [] then None else got[|got| - 1])
            && |sent| == |got| + (if AwaitingCommit(t.handle.stage) then 1 else 0)
    decreases |events|
  {
    if events != [] {
      var h0 := New(u, f);
      var init := events[..|events| - 1];
      var e := events[|events| - 1];
      TokenCounts(u, f, init);
      var before := Run(h0, init);
      var last := Step(before.handle, e);
      assert Run(h0, events) == Transition(last.handle, before.effects + last.effects);
      CollectAppend(before.effects, last.effects, CommitUriOf);
      StepState(before.handle, e);
      StepCommitUris(before.handle, e);
    }
  }

  /** The first commit passes no token; commit `k + 1` passes the token commit
      `k` returned; `this.uploadUri` always holds the latest token. */
  lemma {:induction false} TokenThreading(u: Upload, f: File, events: seq<Event>)
    ensures var t := Run(New(u, f), events);
            var sent := CommitUris(t.effects);
            var got := AcceptedUris(New(u, f), events);
            && |got| == t.handle.current
            && t.handle.uploadUri == (if got == [] then None else got[|got| - 1])
            && |sent| == |got| + (if AwaitingCommit(t.handle.stage) then 1 else 0)
            && (forall k :: 0 <= k < |sent| ==> sent[k] == (if k == 0 then None else got[k - 1]))
  {
    TokenCounts(u, f, events);
    SentTokens(u, f, events);
  }

  lemma {:induction false} SentTokens(u: Upload, f: File, events: seq<Event>)
    ensures var t := Run(New(u, f), events);
            var sent := CommitUris(t.effects);
            var got := AcceptedUris(New(u, f), events);
            && |sent| <= |got| + 1
            && (forall k :: 0 <= k < |sent| ==> sent[k] == (if k == 0 then None else got[k - 1]))
    decreases |events|
  {
    if events != [] {
      var h0 := New(u, f);
      var init := events[..|events| - 1];
      var e := events[|events| - 1];
      SentTokens(u, f, init);
      TokenCounts(u, f, init);
      var before := Run(h0, init);
      var last := Step(before.handle, e);
      var accepted := e.CommitAccepted? && before.handle.stage == Active(Committing);
      assert Run(h0, events) == Transition(last.handle, before.effects + last.effects);
      CollectAppend(before.effects, last.effects, CommitUriOf);
      StepCommitUris(before.handle, e);
      var sent0 := CommitUris(before.effects);
      var got0 := AcceptedUris(h0, init);
      var sent1 := CommitUris(last.effects);
      var got1 := if accepted then [e.uploadUri] else [];
      assert AcceptedUris(h0, events) == got0 + got1;
      assert CommitUris(before.effects + last.effects) == sent0 + sent1;
      if sent1 != [] {
        assert !AwaitingCommit(before.handle.stage);
      }
      ThreadingStep(sent0, got0, sent1, got1);
    }
  }

  /** Appending one commit's token, or one accepted token, keeps commit `k`
      passing the token accepted `k - 1` commits before. */
  lemma ThreadingStep(sent0: seq<Option<string>>, got0: seq<Option<string>>,
                      sent1: seq<Option<string>>, got1: seq<Option<string>>)
    requires |sent0| <= |got0| + 1
    requires forall k :: 0 <= k < |sent0| ==> sent0[k] == (if k == 0 then None else got0[k - 1])
    requires sent1 == [] || (|sent0| == |got0| && sent1 == [if got0 == [] then None else got0[|got0| - 1]])
    requires |sent1| + |sent0| <= |got0| + |got1| + 1
    ensures forall k :: 0 <= k < |sent0 + sent1| ==> (sent0 + sent1)[k] == (if k == 0 then None else (got0 + got1)[k - 1])
  {
    var sent := sent0 + sent1;
    var got := got0 + got1;
    forall k | 0 <= k < |sent|
      ensures sent[k] == (if k == 0 then None else got[k - 1])
    {
      if k < |sent0| {
        assert sent[k] == sent0[k];
        if k > 0 {
          assert got[k - 1] == got0[k - 1];
        }
      }
    }
  }

  /** The first commit of every upload carries no `X-Upload-Uri` header, and a
      later one carries it iff the previous commit returned a non-empty token.
      Commit `k` is that of part `k` (`PartsInOrder`), so it carries that
      part's key. */
  lemma {:induction false} CommitHeadersThreadTokens(u: Upload, f: File, events: seq<Event>, k: nat)
    requires k < |CommitUris(Run(New(u, f), events).effects)|
    ensures var got := AcceptedUris(New(u, f), events);
            k <= |got| && k < |u.parts|
    ensures var got := AcceptedUris(New(u, f), events);
            var headers := CompletePart(u.id, u.parts[k].key, CommitUris(Run(New(u, f), events).effects)[k]).headers.value;
            && headers[UploadKeyHeader] == u.parts[k].key
            && (UploadUriHeader in headers <==> k > 0 && got[k - 1].Some? && got[k - 1].value != "")
  {
    TokenThreading(u, f, events);
  }

  // ---------------------------------------------------------------------
  // Credentials, progress and stop
  // ---------------------------------------------------------------------

  /** Each part's transfer uses the credentials just issued for that part and
      sends exactly the part's byte range of the file, privately. */
  lemma TransferUsesIssuedCredentials(h: Handle, credentials: Credentials)
    requires Valid(h) && h.stage == Active(Crediting)
    ensures var p := h.upload.parts[h.current];
            && Step(h, CredentialsIssued(credentials)).effects == [BeginTransfer(TransferFor(h.upload, p, h.file, credentials))]
            && Step(h, CredentialsIssued(credentials)).handle.request == Some(TransferFor(h.upload, p, h.file, credentials))
  {
  }

  function TransferOf(e: Effect): seq<TransferParams> {
    if e.BeginTransfer? then [e.params] else []
  }

  /** The transfers started, in order. */
  function Transfers(effects: seq<Effect>): seq<TransferParams> {
    Collect(effects, TransferOf)
  }

  /** `this.request` is the last transfer started, or `null` before the first. */
  lemma {:induction false} RequestIsLastTransfer(h: Handle, events: seq<Event>)
    requires Valid(h) && h.request.None?
    ensures var t := Run(h, events);
            var ts := Transfers(t.effects);
            t.handle.request == (if ts == [] then None else Some(ts[|ts| - 1]))
    decreases |events|
  {
    if events != [] {
      var init := events[..|events| - 1];
      var before := Run(h, init);
      var last := Step(before.handle, events[|events| - 1]);
      RequestIsLastTransfer(h, init);
      assert Run(h, events) == Transition(last.handle, before.effects + last.effects);
      CollectAppend(before.effects, last.effects, TransferOf);
      StepState(before.handle, events[|events| - 1]);
      StepTransfers(before.handle, events[|events| - 1]);
    }
  }

  /** `stop` always abandons the upload at the backend; it aborts a transfer
      iff one has been started, and then the last one started, even after
      completion; and it changes nothing, so it does not by itself keep the
      next part from starting. */
  lemma StopAbortsOnlyStartedTransfers(u: Upload, f: File, events: seq<Event>)
    ensures var t := Run(New(u, f), events);
            var ts := Transfers(t.effects);
            && Step(t.handle, Stop).handle == t.handle
            && Step(t.handle, Stop).effects
               == [RequestStop(u.id)] + (if ts == [] then [] else [AbortTransfer(ts[|ts| - 1])])
  {
    RequestIsLastTransfer(New(u, f), events);
  }

  /** Running one more event is one more step. */
  lemma RunSnoc(h: Handle, events: seq<Event>, e: Event)
    requires Valid(h)
    ensures var before := Run(h, events);
            Run(h, events + [e])
            == Transition(Step(before.handle, e).handle, before.effects + Step(before.handle, e).effects)
  {
    assert (events + [e])[..|events|] == events;
  }

  /** A commit that succeeds after `stop` still starts the next part. */
  lemma {:induction false} StopDoesNotCancel(h: Handle, uploadUri: Option<string>)
    requires Valid(h) && h.stage == Active(Committing) && h.current + 1 < |h.upload.parts|
    ensures Run(h, [Stop, CommitAccepted(uploadUri)]).effects
            == StopEffects(h) + [RequestCredentials(h.upload.id, h.upload.parts[h.current + 1].key)]
  {
    var commit := CommitAccepted(uploadUri);
    RunStop(h);
    CommitStartsNextPart(h, uploadUri);
    RunSnoc(h, [Stop], commit);
    assert [Stop] + [commit] == [Stop, commit];
  }

  lemma RunStop(h: Handle)
    requires Valid(h)
    ensures Run(h, [Stop]) == Transition(h, StopEffects(h))
  {
    assert [Stop][..0] == [];
  }

  lemma CommitStartsNextPart(h: Handle, uploadUri: Option<string>)
    requires Valid(h) && h.stage == Active(Committing) && h.current + 1 < |h.upload.parts|
    ensures Step(h, CommitAccepted(uploadUri)).effects
            == [RequestCredentials(h.upload.id, h.upload.parts[h.current + 1].key)]
  {
  }

  /** Part index and loaded byte count of every progress event that took effect. */
  function ProgressTags(h: Handle, events: seq<Event>): seq<(nat, int)>
    requires Valid(h)
    decreases |events|
  {
    if events == [] then []
    else
      var init := events[..|events| - 1];
      var e := events[|events| - 1];
      var before := Run(h, init).handle;
      ProgressTags(h, init)
        + (if e.TransferProgress? && before.stage == Active(Transferring) then [(before.current, e.loaded)] else [])
  }

  function ProgressOf(e: Effect): seq<int> {
    if e.ReportProgress? then [e.bytes] else []
  }

  /** The values passed to `progressFn`, in order. */
  function Progress(effects: seq<Effect>): seq<int> {
    Collect(effects, ProgressOf)
  }

  /** Every progress value is the reporting part's start plus the bytes loaded
      so far in that part, and reports come part by part in list order. */
  lemma {:induction false} ProgressIsPartOffset(h: Handle, events: seq<Event>)
    requires Valid(h)
    ensures var t := Run(h, events);
            var tags := ProgressTags(h, events);
            var reported := Progress(t.effects);
            && |reported| == |tags|
            && (forall k :: 0 <= k < |tags| ==> h.current <= tags[k].0 <= t.handle.current && tags[k].0 < |h.upload.parts|)
            && (forall k :: 0 <= k < |tags| ==> reported[k] == h.upload.parts[tags[k].0].start + tags[k].1)
            && (forall k :: 0 <= k < |tags| - 1 ==> tags[k].0 <= tags[k + 1].0)
  {
    ProgressTagsOrdered(h, events);
    ReportedMatchesTags(h, events);
  }

  /** Progress is tagged with parts between the first and the current one,
      in list order. */
  lemma {:induction false} ProgressTagsOrdered(h: Handle, events: seq<Event>)
    requires Valid(h)
    ensures TagsWithin(ProgressTags(h, events), h.current, Run(h, events).handle.current, |h.upload.parts|)
    decreases |events|
  {
    if events != [] {
      var init := events[..|events| - 1];
      var e := events[|events| - 1];
      var before := Run(h, init).handle;
      var after := Step(before, e).handle;
      ProgressTagsOrdered(h, init);
      assert Run(h, events).handle == after;
      var added := if e.TransferProgress? && before.stage == Active(Transferring)
                   then [(before.current, e.loaded)] else [];
      assert ProgressTags(h, events) == ProgressTags(h, init) + added;
      TagsWithinExtend(ProgressTags(h, init), added, h.current, before.current, after.current, |h.upload.parts|);
    }
  }

  /** Every tag names a part in `[lo, hi]` below `n`, in non-decreasing order. */
  predicate TagsWithin(tags: seq<(nat, int)>, lo: nat, hi: nat, n: nat) {
    && (forall k :: 0 <= k < |tags| ==> lo <= tags[k].0 <= hi && tags[k].0 < n)
    && (forall k :: 0 <= k < |tags| - 1 ==> tags[k].0 <= tags[k + 1].0)
  }

  lemma TagsWithinExtend(tags: seq<(nat, int)>, added: seq<(nat, int)>, lo: nat, mid: nat, hi: nat, n: nat)
    requires TagsWithin(tags, lo, mid, n)
    requires lo <= mid <= hi
    requires added == [] || (|added| == 1 && added[0].0 == mid && mid < n)
    ensures TagsWithin(tags + added, lo, hi, n)
  {
    var all := tags + added;
    forall k | 0 <= k < |all| - 1
      ensures all[k].0 <= all[k + 1].0
    {
      assert all[k] == tags[k];
      if k + 1 < |tags| {
        assert all[k + 1] == tags[k + 1];
      }
    }
  }

  /** The k-th value passed to `progressFn` is computed from the k-th tag. */
  lemma {:induction false} ReportedMatchesTags(h: Handle, events: seq<Event>)
    requires Valid(h)
    ensures var tags := ProgressTags(h, events);
            var reported := Progress(Run(h, events).effects);
            && |reported| == |tags|
            && (forall k :: 0 <= k < |tags| ==>
                  tags[k].0 < |h.upload.parts| && reported[k] == h.upload.parts[tags[k].0].start + tags[k].1)
    decreases |events|
  {
    if events != [] {
      var init := events[..|events| - 1];
      var before := Run(h, init);
      var last := Step(before.handle, events[|events| - 1]);
      ReportedMatchesTags(h, init);
      assert Run(h, events) == Transition(last.handle, before.effects + last.effects);
      CollectAppend(before.effects, last.effects, ProgressOf);
      StepProgress(before.handle, events[|events| - 1]);
    }
  }

  /** Parts lie in ascending order without overlap, each range well formed. */
  predicate Ascending(parts: seq<Part>) {
    && (forall j :: 0 <= j < |parts| ==> parts[j].start <= parts[j].end)
    && (forall j :: 0 <= j < |parts| - 1 ==> parts[j].end <= parts[j + 1].start)
  }

  lemma {:induction false} AscendingApart(parts: seq<Part>, a: nat, b: nat)
    requires Ascending(parts) && a < b < |parts|
    ensures parts[a].end <= parts[b].start
    decreases b - a
  {
    if a + 1 < b {
      AscendingApart(parts, a + 1, b);
    }
  }

  /** The transfer library reports, within each part, a byte count that never
      decreases and never exceeds the part's size. */
  predicate LoadedSane(parts: seq<Part>, tags: seq<(nat, int)>) {
    && (forall k :: 0 <= k < |tags| ==> tags[k].0 < |parts| && 0 <= tags[k].1 <= parts[tags[k].0].end - parts[tags[k].0].start)
    && (forall k :: 0 <= k < |tags| - 1 && tags[k].0 == tags[k + 1].0 ==> tags[k].1 <= tags[k + 1].1)
  }

  /** Progress never decreases across the whole upload, provided the parts are
      ascending and each part's own byte counts are sane. */
  lemma {:induction false} ProgressMonotone(u: Upload, f: File, events: seq<Event>)
    requires Ascending(u.parts)
    requires LoadedSane(u.parts, ProgressTags(New(u, f), events))
    ensures var reported := Progress(Run(New(u, f), events).effects);
            forall k :: 0 <= k < |reported| - 1 ==> reported[k] <= reported[k + 1]
  {
    var tags := ProgressTags(New(u, f), events);
    var reported := Progress(Run(New(u, f), events).effects);
    ProgressIsPartOffset(New(u, f), events);
    forall k | 0 <= k < |reported| - 1
      ensures reported[k] <= reported[k + 1]
    {
      if tags[k].0 < tags[k + 1].0 {
        AscendingApart(u.parts, tags[k].0, tags[k + 1].0);
      }
    }
  }

  // ---------------------------------------------------------------------
  // The backend calls' outcomes as events
  // ---------------------------------------------------------------------

  /** How a settled credential request reaches the walk; a request that never
      settles delivers nothing. */
  function CredentialsEvent(s: Settlement<Credentials>): (e: Option<Event>)
    ensures e.Some? <==> s.Resolved? || s.Rejected?
    ensures s.Resolved? ==> e == Some(CredentialsIssued(s.response))
    ensures s.Rejected? ==> e == Some(CredentialsRefused(s.error))
  {
    match s
    case Resolved(c) => Some(CredentialsIssued(c))
    case Rejected(err) => Some(CredentialsRefused(err))
    case _ => None
  }

  /** A credential request is made with the default timeout: if its first
      attempt fails with anything but 419, the part fails at once and `errFn`
      receives that error; if the session cannot be renewed, the walk is left
      waiting for ever and neither callback runs. */
  lemma CredentialFailureEndsWalk(h: Handle, trace: seq<Attempt<Credentials>>, start: int)
    requires Valid(h) && h.stage == Active(Crediting)
    requires |trace| > 0 && trace[0].Refused? && trace[0].now >= start
    ensures var call := PandaReqwest(GetCredentials(h.upload.id, h.upload.parts[h.current].key), trace, start);
            var e := CredentialsEvent(call.run.settlement);
            && (trace[0].error.status != SessionExpiredStatus ==>
                  e == Some(CredentialsRefused(trace[0].error))
                  && Step(h, e.value).effects == [ReportError(Http(trace[0].error))]
                  && Step(h, e.value).handle.stage == Failed(Crediting))
            && (trace[0].error.status == SessionExpiredStatus && !trace[0].renewed ==> e.None?)
  {
  }
}
