/**
 * The request table of the language-server client (send, request, dispatch and the reader task's exit in
 * piscis-ide-tools/src/lsp/client.rs): requesters and one reader that can die at any point.
 */
module LspClient {
  import opened Common

  /** Where a requester is. `passedSend` records whether an abandoned requester had got through `send`. */
  datatype Phase =
    | Allocated
    | Inserted
    | Sending
    | SendFailed
    | Waiting
    | TimedOut
    | Finished
    | Abandoned(passedSend: bool)

  datatype Reader = Reading | Dead | Drained

  /** `answers` counts how often the one-shot channel of a request was used. */
  datatype Client = Client(pending: set<nat>, isAlive: bool, nextId: nat, reader: Reader, phase: map<nat, Phase>,
                           answers: map<nat, nat>)

  datatype Step =
    | Allocate
    | Insert(q: nat)
    | CheckAlive(q: nat)
    | Write(q: nat, ok: bool)
    | RemoveFailed(q: nat)
    | Receive(q: nat)
    | Expire(q: nat)
    | RemoveExpired(q: nat)
    | Abandon(q: nat)
    | Answer(q: nat)
    | ReaderExit
    | Drain

  predicate In(c: Client, q: nat, p: Phase) {
    q in c.phase && c.phase[q] == p
  }

  predicate Enabled(c: Client, step: Step) {
    match step
    case Allocate => true
    case Insert(q) => In(c, q, Allocated)
    case CheckAlive(q) => In(c, q, Inserted)
    case Write(q, ok) => In(c, q, Sending)
    case RemoveFailed(q) => In(c, q, SendFailed)
    case Receive(q) => In(c, q, Waiting) && q in c.answers && c.answers[q] > 0
    case Expire(q) => In(c, q, Waiting)
    case RemoveExpired(q) => In(c, q, TimedOut)
    case Abandon(q) => q in c.phase && !c.phase[q].Finished? && !c.phase[q].Abandoned?
    case Answer(q) => c.reader == Reading
    case ReaderExit => c.reader == Reading
    case Drain => c.reader == Dead
  }

  function Used(answers: map<nat, nat>, q: nat): nat {
    if q in answers then answers[q] else 0
  }

  function Next(c: Client, step: Step): Client
    requires Enabled(c, step)
  {
    match step
    case Allocate => c.(nextId := c.nextId + 1, phase := c.phase[c.nextId := Allocated])
    case Insert(q) => c.(pending := c.pending + {q}, phase := c.phase[q := Inserted])
    case CheckAlive(q) => c.(phase := c.phase[q := if c.isAlive then Sending else SendFailed])
    case Write(q, ok) => c.(phase := c.phase[q := if ok then Waiting else SendFailed])
    case RemoveFailed(q) => c.(pending := c.pending - {q}, phase := c.phase[q := Finished])
    case Receive(q) => c.(phase := c.phase[q := Finished])
    case Expire(q) => c.(phase := c.phase[q := TimedOut])
    case RemoveExpired(q) => c.(pending := c.pending - {q}, phase := c.phase[q := Finished])
    case Abandon(q) => c.(phase := c.phase[q := Abandoned(c.phase[q].Waiting? || c.phase[q].TimedOut?)])
    case Answer(q) =>
      if q in c.pending then c.(pending := c.pending - {q}, answers := c.answers[q := Used(c.answers, q) + 1]) else c
    case ReaderExit => c.(isAlive := false, reader := Dead)
    case Drain =>
      c.(pending := {}, reader := Drained,
         answers := c.answers + map q | q in c.pending :: Used(c.answers, q) + 1)
  }

  function Exec(c: Client, steps: seq<Step>): Option<Client>
    decreases |steps|
  {
    if steps == [] then Some(c)
    else if !Enabled(c, steps[0]) then None
    else Exec(Next(c, steps[0]), steps[1..])
  }

  const START := Client({}, true, 1, Reading, map[], map[])

  /** The requester has got through `send` with success. */
  predicate PastSend(p: Phase) {
    p.Waiting? || p.TimedOut? || (p.Abandoned? && p.passedSend)
  }

  ghost predicate ClientOk(c: Client) {
    && (c.isAlive <==> c.reader == Reading)
    && (forall q :: q in c.phase ==> q < c.nextId)
    && (forall q :: q in c.pending ==> q in c.phase && c.phase[q] != Allocated && !c.phase[q].Finished?)
    && (forall q :: q in c.pending ==> Used(c.answers, q) == 0)
    && (forall q :: q in c.answers ==> c.answers[q] <= 1 && q in c.phase && c.phase[q] != Allocated)
    && (forall q :: q in c.phase && (c.phase[q].Inserted? || c.phase[q].Sending? || PastSend(c.phase[q])) ==>
          q in c.pending || Used(c.answers, q) == 1)
    && (c.reader == Drained ==> forall q :: q in c.pending ==> !PastSend(c.phase[q]) && !c.phase[q].Sending?)
  }

  /** A step of requester `q`: its phase moves on, and its entry in the table is kept, made or removed. */
  lemma RequesterKeepsOk(c: Client, c': Client, q: nat, p: Phase)
    requires ClientOk(c) && q in c.phase && c' == c.(pending := c'.pending, phase := c.phase[q := p])
    requires c'.pending == c.pending || (p.Finished? && c'.pending == c.pending - {q})
          || (p.Inserted? && c'.pending == c.pending + {q} && c.phase[q].Allocated?)
    requires p.Finished? ==> q !in c'.pending
    requires p.Inserted? ==> q in c'.pending
    requires p != Allocated
    requires p.Sending? || PastSend(p) ==> c.phase[q].Inserted? || c.phase[q].Sending? || PastSend(c.phase[q])
    requires c.reader == Drained && (p.Sending? || PastSend(p)) ==> c.phase[q].Sending? || PastSend(c.phase[q])
    ensures ClientOk(c')
  {
  }

  lemma DrainKeepsOk(c: Client)
    requires ClientOk(c) && c.reader == Dead
    ensures ClientOk(Next(c, Drain))
  {
  }

  lemma AnswerKeepsOk(c: Client, q: nat)
    requires ClientOk(c) && c.reader == Reading
    ensures ClientOk(Next(c, Answer(q)))
  {
  }

  lemma StepKeepsOk(c: Client, step: Step)
    requires ClientOk(c) && Enabled(c, step)
    ensures ClientOk(Next(c, step))
  {
    match step
    case Allocate =>
    case Answer(q) => AnswerKeepsOk(c, q);
    case ReaderExit =>
    case Drain => DrainKeepsOk(c);
    case _ =>
      var c' := Next(c, step);
      RequesterKeepsOk(c, c', step.q, c'.phase[step.q]);
  }

  lemma {:induction false} RunsKeepOk(c: Client, steps: seq<Step>)
    requires ClientOk(c) && Exec(c, steps).Some?
    ensures ClientOk(Exec(c, steps).value)
    decreases |steps|
  {
    if steps != [] {
      StepKeepsOk(c, steps[0]);
      RunsKeepOk(Next(c, steps[0]), steps[1..]);
    }
  }

  /**
   * Over every interleaving: no request is answered twice; once the reader has drained, no request whose
   * requester got through `send` is left in the table, and every requester still waiting has its answer.
   */
  lemma NoRequestIsStranded(steps: seq<Step>)
    requires Exec(START, steps).Some?
    ensures var c := Exec(START, steps).value;
            && (forall q :: q in c.answers ==> c.answers[q] <= 1)
            && (forall q :: q in c.pending ==> Used(c.answers, q) == 0)
            && (c.reader == Drained ==> forall q :: q in c.phase && PastSend(c.phase[q]) ==>
                q !in c.pending && Used(c.answers, q) == 1)
  {
    RunsKeepOk(START, steps);
  }

  /** When every requester has returned, the table is empty. */
  lemma FinishedLeaveNothing(steps: seq<Step>)
    requires Exec(START, steps).Some?
    requires forall q :: q in Exec(START, steps).value.phase ==> Exec(START, steps).value.phase[q].Finished?
    ensures Exec(START, steps).value.pending == {}
  {
    RunsKeepOk(START, steps);
  }

  /** The requester of `q` has got through `send` and is still waiting for its answer. */
  predicate Awaits(c: Client, q: nat) { In(c, q, Waiting) && Used(c.answers, q) == 0 }

  /**
   * In every run, whoever waits without an answer is still in the table, so that the next response to it, or
   * the drain, answers it at once, and once answered it may return; a response to a request that is not in
   * the table changes nothing.
   */
  lemma ResponsesAreDelivered(steps: seq<Step>, q: nat)
    requires Exec(START, steps).Some?
    ensures var c := Exec(START, steps).value;
            && (Awaits(c, q) ==> q in c.pending)
            && (q !in c.pending && Enabled(c, Answer(q)) ==> Next(c, Answer(q)) == c)
            && (forall step :: (step == Answer(q) || step == Drain) && Awaits(c, q) && Enabled(c, step) ==>
                  var c' := Next(c, step);
                  Used(c'.answers, q) == 1 && q !in c'.pending && Enabled(c', Receive(q)))
  {
    RunsKeepOk(START, steps);
  }
}
