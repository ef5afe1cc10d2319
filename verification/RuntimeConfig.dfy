/** Publication of runtime-config revisions and the long poll by which a client follows them: the published marker
    with its height, the broadcast channel that is closed and replaced, and one polling client among any number. */
module RuntimeConfig {
  import opened Common

  datatype Version = Version(name: string, binary: string, sha256: string)

  datatype Threshold = Threshold(modelId: string, value: int, exponent: int)

  datatype Content = Content(logprobsMode: string, requestsEnabled: bool, maxNonce: nat, versions: seq<Version>,
                             refusalTimeout: int, executionTimeout: int, validationRate: nat, voteThreshold: nat,
                             thresholds: seq<Threshold>)

  datatype Revision = Revision(epoch: nat, content: Content)

  /** The published marker and the height it was recorded at. */
  datatype Publisher = Publisher(published: Option<Revision>, height: int)

  predicate Skips(p: Publisher, epoch: nat, content: Content) {
    p.published == Some(Revision(epoch, content))
  }

  /** Heights never go down: a call at a lower height replaces the content and keeps the height. */
  function Published(p: Publisher, h: int, epoch: nat, content: Content): Publisher {
    if Skips(p, epoch, content) then p
    else Publisher(Some(Revision(epoch, content)), if h > p.height then h else p.height)
  }

  datatype Snapshot = Snapshot(height: int, content: Content)

  /** Before the first publication the live caches are served. */
  function SnapshotOf(p: Publisher, live: Content): Snapshot {
    Snapshot(p.height, if p.published.Some? then p.published.value.content else live)
  }

  predicate NeedsFull(clientHeight: int, s: Snapshot) {
    clientHeight == 0 || s.height == 0 || s.height > clientHeight
  }

  // ---- Runs -----------------------------------------------------------------------------------------------------

  datatype Reply = Full(snapshot: Snapshot) | Unchanged

  datatype Phase = Idle
                 | Subscribed(wait: bool, channel: nat)
                 | Waiting(channel: nat)
                 | Answered(reply: Reply)

  /** Channels are numbered; the one numbered `channel` is open and all lower ones are closed. `unannounced` holds the
      heights of publications whose call has not yet reached Notify, `revisions` what was ever published at a height. */
  datatype World = World(server: Publisher, channel: nat, unannounced: multiset<int>, revisions: map<int, Content>,
                         height: int, content: Option<Content>, phase: Phase)

  /** `Read` is given the live content because the caches are read after the marker, outside its lock. */
  datatype Action = Publish(h: int, epoch: nat, content: Content)
                  | Announce(h: int)
                  | Ask(wait: bool)
                  | Read(live: Content)
                  | Wake
                  | TimeOut
                  | Cancel
                  | Take

  const FRESH := World(Publisher(None, 0), 0, multiset{}, map[], 0, None, Idle)

  function PublishStep(w: World, h: int, epoch: nat, content: Content): World {
    var p := Published(w.server, h, epoch, content);
    if Skips(w.server, epoch, content) then w
    else
      w.(server := p,
         unannounced := w.unannounced + multiset{p.height},
         revisions := w.revisions[p.height := content])
  }

  function ReadStep(w: World, live: Content): World
    requires w.phase.Subscribed?
  {
    var s := SnapshotOf(w.server, live);
    if NeedsFull(w.height, s) then w.(phase := Answered(Full(s)))
    else if !w.phase.wait then w.(phase := Answered(Unchanged))
    else w.(phase := Waiting(w.phase.channel))
  }

  function TakeStep(w: World): World
    requires w.phase.Answered?
  {
    match w.phase.reply
    case Full(s) => w.(height := s.height, content := Some(s.content), phase := Idle)
    case Unchanged => w.(phase := Idle)
  }

  /** A step that is not possible leaves the world as it is. */
  function Step(w: World, a: Action): World {
    match a
    case Publish(h, epoch, content) => PublishStep(w, h, epoch, content)
    case Announce(h) =>
      if h in w.unannounced then w.(unannounced := w.unannounced - multiset{h}, channel := w.channel + 1) else w
    case Ask(wait) => if w.phase.Idle? then w.(phase := Subscribed(wait, w.channel)) else w
    case Read(live) => if w.phase.Subscribed? then ReadStep(w, live) else w
    case Wake =>
      if w.phase.Waiting? && w.phase.channel < w.channel then w.(phase := Subscribed(true, w.channel)) else w
    case TimeOut => if w.phase.Waiting? then w.(phase := Answered(Unchanged)) else w
    case Cancel => if w.phase.Waiting? then w.(phase := Idle) else w
    case Take => if w.phase.Answered? then TakeStep(w) else w
  }

  function Run(w: World, acts: seq<Action>): World {
    if acts == [] then w else Step(Run(w, acts[..|acts| - 1]), acts[|acts| - 1])
  }

  // ---- What a publisher has to respect ------------------------------------------------------------------------

  /** New content comes with a larger height. An epoch change alone may repeat the height. */
  predicate Careful(p: Publisher, h: int, content: Content) {
    h > p.height || (p.published.Some? && p.published.value.content == content)
  }

  predicate CarefulStep(w: World, a: Action) {
    a.Publish? ==> Careful(w.server, a.h, a.content)
  }

  ghost predicate CarefulRun(w: World, acts: seq<Action>) {
    forall n :: 0 <= n < |acts| ==> CarefulStep(Run(w, acts[..n]), acts[n])
  }

  // ---- The invariant ------------------------------------------------------------------------------------------

  /** Being at the published height means holding the published content. */
  predicate Agrees(w: World) {
    w.server.published.Some? && w.height == w.server.height ==> w.content == Some(w.server.published.value.content)
  }

  /** Height 0 is no revision; any other height comes with what was published at it. */
  predicate Recorded(w: World, height: int, content: Option<Content>) {
    height == 0 || (height in w.revisions && content == Some(w.revisions[height]))
  }

  predicate ServerSafe(w: World) {
    && (w.server.published.None? ==> w.server.height == 0 && w.revisions == map[])
    && (w.server.published.Some? ==>
          w.server.height > 0 && Recorded(w, w.server.height, Some(w.server.published.value.content)))
    && (forall k :: k in w.revisions ==> 0 < k <= w.server.height)
  }

  predicate ClientSafe(w: World) {
    && Recorded(w, w.height, w.content)
    && (w.phase.Answered? && w.phase.reply.Full? ==>
          Recorded(w, w.phase.reply.snapshot.height, Some(w.phase.reply.snapshot.content)))
  }

  /** A client blocked on the open channel: whatever it has not seen is not announced yet. */
  predicate NothingMissed(w: World) {
    w.phase.Waiting? && w.phase.channel == w.channel ==>
      forall k :: k in w.revisions && k > w.height ==> k in w.unannounced
  }

  predicate Safe(w: World) {
    ServerSafe(w) && ClientSafe(w) && NothingMissed(w)
    && (w.phase.Subscribed? || w.phase.Waiting? ==> w.phase.channel <= w.channel)
  }

  lemma PublishKeepsSafe(w: World, h: int, epoch: nat, content: Content)
    requires Safe(w) && Careful(w.server, h, content)
    ensures Safe(PublishStep(w, h, epoch, content))
  {
    var v := PublishStep(w, h, epoch, content);
    forall k | k in w.revisions
      ensures k in v.revisions && v.revisions[k] == w.revisions[k]
    {
    }
    if !Skips(w.server, epoch, content) && v.phase.Waiting? && v.phase.channel == v.channel {
      forall k | k in v.revisions && k > v.height
        ensures k in v.unannounced
      {
        assert k != v.server.height ==> k in w.unannounced;
      }
    }
  }

  lemma StepKeepsSafe(w: World, a: Action)
    requires Safe(w) && CarefulStep(w, a)
    ensures Safe(Step(w, a))
  {
    if a.Publish? {
      PublishKeepsSafe(w, a.h, a.epoch, a.content);
    }
  }

  lemma {:induction false} RunKeepsSafe(w: World, acts: seq<Action>)
    requires Safe(w) && CarefulRun(w, acts)
    ensures Safe(Run(w, acts))
  {
    if acts != [] {
      var n := |acts| - 1;
      forall m | 0 <= m < n
        ensures CarefulStep(Run(w, acts[..n][..m]), acts[..n][m])
      {
        assert acts[..n][..m] == acts[..m];
      }
      RunKeepsSafe(w, acts[..n]);
      StepKeepsSafe(Run(w, acts[..n]), acts[n]);
    }
  }

  // ---- Main results --------------------------------------------------------------------------------------------

  /** In every run with careful publishers, a client at the published height holds the published content, and a
      client blocked on the open channel has seen every publication whose call has finished. */
  lemma ClientsFollowPublisher(acts: seq<Action>)
    requires CarefulRun(FRESH, acts)
    ensures var w := Run(FRESH, acts);
            && Agrees(w)
            && NothingMissed(w)
            && (w.phase.Waiting? && w.phase.channel == w.channel && w.unannounced == multiset{} ==>
                  w.server.published.Some? ==> w.content == Some(w.server.published.value.content))
  {
    RunKeepsSafe(FRESH, acts);
  }

  /** An Unchanged reply given without waiting, and the decision to wait, are given only to a client that holds what
      is published at that moment. */
  lemma UnchangedMeansCurrent(acts: seq<Action>, live: Content)
    requires CarefulRun(FRESH, acts)
    requires Run(FRESH, acts).phase.Subscribed?
    ensures var w := Run(FRESH, acts);
            var v := Step(w, Read(live));
            v.phase == Answered(Unchanged) || v.phase.Waiting? ==>
              && w.server.published.Some?
              && w.height == w.server.height
              && w.content == Some(w.server.published.value.content)
  {
    RunKeepsSafe(FRESH, acts);
  }

  /** Announcing a publication that a blocked client has not seen brings the client to the published content. */
  lemma AnnouncementReachesClient(w: World, k: int, live: Content)
    requires Safe(w) && w.phase.Waiting? && w.phase.channel == w.channel
    requires k in w.revisions && k > w.height
    ensures k in w.unannounced
    ensures var v := Step(Step(Step(Step(w, Announce(k)), Wake), Read(live)), Take);
            && w.server.published.Some?
            && v.height == w.server.height >= k
            && v.content == Some(w.server.published.value.content)
  {
  }

  /** For a client that is up to date, one publication keeps agreement exactly when it is careful. */
  lemma PublicationAgreesIffCareful(w: World, h: int, epoch: nat, content: Content)
    requires w.server.published.Some? && w.height == w.server.height && Agrees(w)
    ensures Agrees(Step(w, Publish(h, epoch, content))) <==> Careful(w.server, h, content)
  {
  }

  /** The client is at the published height and no other content is on its way to it. */
  predicate UpToDate(w: World, height: int, content: Option<Content>) {
    && w.server.published.Some? && w.server.height == w.height == height != 0 && w.content == content
    && !(w.phase.Answered? && w.phase.reply.Full?)
  }

  lemma StallStep(w: World, a: Action, height: int, content: Option<Content>)
    requires UpToDate(w, height, content) && (a.Publish? ==> a.h <= height)
    ensures UpToDate(Step(w, a), height, content)
  {
  }

  /** Content published without a larger height never reaches a client that was up to date, however it polls, until
      some publication raises the height. */
  lemma {:induction false} StalledRevisionNeverArrives(w: World, acts: seq<Action>)
    requires UpToDate(w, w.height, w.content)
    requires forall n :: 0 <= n < |acts| && acts[n].Publish? ==> acts[n].h <= w.height
    ensures UpToDate(Run(w, acts), w.height, w.content)
  {
    if acts != [] {
      var n := |acts| - 1;
      StalledRevisionNeverArrives(w, acts[..n]);
      StallStep(Run(w, acts[..n]), acts[n], w.height, w.content);
    }
  }

  lemma RunOne(w: World, acts: seq<Action>, a: Action)
    ensures Run(w, acts + [a]) == Step(Run(w, acts), a)
  {
    assert (acts + [a])[..|acts|] == acts;
  }

  /** The failing family is inhabited: two revisions at one height leave an up-to-date client behind. */
  lemma StalledRevision(a: Content, b: Content)
    requires a != b
    ensures var acts := [Publish(5, 1, a), Ask(false), Read(b), Take, Publish(5, 1, b)];
            !CarefulStep(Run(FRESH, acts[..4]), acts[4]) && !Agrees(Run(FRESH, acts))
  {
    var server := Publisher(Some(Revision(1, a)), 5);
    var w := World(server, 0, multiset{} + multiset{5}, map[5 := a], 0, None, Idle);
    RunOne(FRESH, [], Publish(5, 1, a));
    assert Run(FRESH, [Publish(5, 1, a)]) == w by {
      assert [] + [Publish(5, 1, a)] == [Publish(5, 1, a)];
    }
    FirstFetch(w, a, b);
    var first := [Publish(5, 1, a)];
    RunOne(FRESH, first, Ask(false));
    RunOne(FRESH, first + [Ask(false)], Read(b));
    RunOne(FRESH, first + [Ask(false)] + [Read(b)], Take);
    var four := first + [Ask(false)] + [Read(b)] + [Take];
    RunOne(FRESH, four, Publish(5, 1, b));
    var acts := [Publish(5, 1, a), Ask(false), Read(b), Take, Publish(5, 1, b)];
    assert acts == four + [Publish(5, 1, b)] && acts[..4] == four;
    PublicationAgreesIffCareful(Run(FRESH, four), 5, 1, b);
  }

  lemma FirstFetch(w: World, a: Content, live: Content)
    requires w.server == Publisher(Some(Revision(1, a)), 5) && w.height == 0 && w.phase == Idle
    ensures Step(Step(Step(w, Ask(false)), Read(live)), Take) == w.(height := 5, content := Some(a))
  {
  }

  // ---- The objects --------------------------------------------------------------------------------------------

  method SlicesEqual<T(==)>(a: seq<T>, b: seq<T>) returns (same: bool)
    ensures same <==> a == b
  {
    if |a| != |b| {
      return false;
    }
    for i := 0 to |a|
      invariant a[..i] == b[..i]
    {
      if a[i] != b[i] {
        return false;
      }
    }
    return true;
  }

  /** The field-by-field comparison forgets no field. */
  method ContentEqual(a: Content, b: Content) returns (same: bool)
    ensures same <==> a == b
  {
    var versions := SlicesEqual(a.versions, b.versions);
    var thresholds := SlicesEqual(a.thresholds, b.thresholds);
    same := a.logprobsMode == b.logprobsMode && a.requestsEnabled == b.requestsEnabled && a.maxNonce == b.maxNonce
      && versions && a.refusalTimeout == b.refusalTimeout && a.executionTimeout == b.executionTimeout
      && a.validationRate == b.validationRate && a.voteThreshold == b.voteThreshold && thresholds;
  }

  class Channel {
    var closed: bool

    constructor ()
      ensures !closed
    {
      closed := false;
    }
  }

  class Notifier {
    var ch: Channel

    constructor ()
      ensures fresh(ch) && !ch.closed
    {
      ch := new Channel();
    }

    method Notify()
      requires !ch.closed
      modifies this, ch
      ensures old(ch).closed && fresh(ch) && !ch.closed
    {
      ch.closed := true;
      ch := new Channel();
    }
  }

  class ConfigManager {
    var initialized: bool
    var epochID: nat
    var content: Content
    var paramsBlockHeight: int
    const notifier: Notifier

    function State(): Publisher
      reads this
    {
      Publisher(if initialized then Some(Revision(epochID, content)) else None, paramsBlockHeight)
    }

    constructor (empty: Content)
      ensures State() == Publisher(None, 0) && fresh(notifier) && fresh(notifier.ch) && !notifier.ch.closed
    {
      initialized, epochID, content, paramsBlockHeight := false, 0, empty, 0;
      notifier := new Notifier();
    }

    /** The waiters are woken exactly when a revision was published. */
    method ApplyIfChanged(blockHeight: int, epoch: nat, live: Content) returns (published: bool)
      requires !notifier.ch.closed
      modifies this, notifier, notifier.ch
      ensures State() == Published(old(State()), blockHeight, epoch, live)
      ensures published <==> !Skips(old(State()), epoch, live)
      ensures published <==> old(notifier.ch).closed
      ensures !notifier.ch.closed
      ensures if published then fresh(notifier.ch) else notifier.ch == old(notifier.ch)
    {
      var same := ContentEqual(content, live);
      if initialized && epochID == epoch && same {
        return false;
      }
      if blockHeight > paramsBlockHeight {
        paramsBlockHeight := blockHeight;
      }
      initialized, epochID, content := true, epoch, live;
      notifier.Notify();
      return true;
    }
  }
}
