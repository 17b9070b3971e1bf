// Answers and deliveries of one conversation side by side: how a released answer command goes missing
// from the conversation state, and what its delivery then does.
module AnswerDelivery {
  import opened Wrappers
  import Commands
  import Interactions
  import Protocol
  import ProtocolInvariant
  import Guarantees
  import Witnesses

  /** The delivery protocol, and the answers of the conversation state its guards read. */
  datatype Joint = Joint(delivery: Protocol.System, answers: Interactions.System)

  /** A step of either side, or the release of an answer, which writes its command for both. */
  datatype Step =
    | Deliver(step: Protocol.Step)
    | Answer(change: Interactions.Step)
    | Release(change: Interactions.Step, row: Commands.Command)

  /** A guard finds an answer command exactly if the conversation state lists it. */
  ghost predicate GuardReads(j: Joint, step: Protocol.Step)
    requires Protocol.Enabled(j.delivery, step)
  {
    step.ReadGuard? ==>
      var command := j.delivery.deliveries[step.d].claim.command;
      command in j.answers.store.commandRows ==> (step.present <==> command in j.answers.store.aggregate.commands)
  }

  ghost predicate Enabled(j: Joint, step: Step) {
    match step
    case Deliver(p) =>
      && Protocol.Enabled(j.delivery, p) && GuardReads(j, p)
      && (p.Accept? ==> !p.command.kind.AnswerInteraction?)
    case Answer(change) => Interactions.Enabled(j.answers, change) && !change.Release?
    case Release(change, row) =>
      && Interactions.Enabled(j.answers, change) && change.Release? && change.allowed
      && change.interaction in j.answers.store.rows && j.answers.store.rows[change.interaction].command.None?
      && row.id == change.command && row.kind.AnswerInteraction? && Protocol.Enabled(j.delivery, Protocol.Accept(row))
  }

  ghost function Apply(j: Joint, step: Step): Joint
    requires Enabled(j, step)
  {
    match step
    case Deliver(p) => j.(delivery := Protocol.Apply(j.delivery, p))
    case Answer(change) => j.(answers := Interactions.Apply(j.answers, change))
    case Release(change, row) =>
      Joint(Protocol.Apply(j.delivery, Protocol.Accept(row)), Interactions.Apply(j.answers, change))
  }

  ghost predicate ValidRun(j: Joint, steps: seq<Step>)
    decreases |steps|
  {
    |steps| == 0 || (Enabled(j, steps[0]) && ValidRun(Apply(j, steps[0]), steps[1..]))
  }

  ghost function RunOf(j: Joint, steps: seq<Step>): Joint
    requires ValidRun(j, steps)
    decreases |steps|
  {
    if |steps| == 0 then j else RunOf(Apply(j, steps[0]), steps[1..])
  }

  ghost predicate Initial(j: Joint) {
    Protocol.Initial(j.delivery) && Interactions.Initial(j.answers)
  }

  // ----- While the conversation state lists what is delivered -----

  /**
   * A guard that cannot be fooled: its command is an answer command the state lists, or one the guard
   * finds anyway, or one whose row is open.
   */
  ghost predicate GuardFinds(j: Joint, step: Protocol.Step)
    requires Protocol.Enabled(j.delivery, step)
  {
    step.ReadGuard? ==>
      var command := j.delivery.deliveries[step.d].claim.command;
      || (command in j.answers.store.aggregate.commands && command in j.answers.store.commandRows)
      || (command !in j.answers.store.commandRows && step.present)
      || ProtocolInvariant.GuardHolds(j.delivery, step.d, false)
  }

  ghost predicate Careful(j: Joint, step: Step)
    requires Enabled(j, step)
  {
    step.Deliver? ==> GuardFinds(j, step.step) && Witnesses.OwnFenceAt(j.delivery, step.step) && Witnesses.ReadFenceAt(j.delivery, step.step)
  }

  ghost predicate CarefulRun(j: Joint, steps: seq<Step>)
    requires ValidRun(j, steps)
    decreases |steps|
  {
    |steps| == 0 || (Careful(j, steps[0]) && CarefulRun(Apply(j, steps[0]), steps[1..]))
  }

  lemma CarefulIsDisciplined(j: Joint, step: Protocol.Step)
    requires Enabled(j, Deliver(step)) && Careful(j, Deliver(step))
    ensures ProtocolInvariant.Disciplined(j.delivery, step)
  {
  }

  lemma CarefulStepKeepsInv(j: Joint, step: Step)
    requires ProtocolInvariant.Inv(j.delivery) && Guarantees.HistoryOk(j.delivery)
    requires Enabled(j, step) && Careful(j, step)
    ensures ProtocolInvariant.Inv(Apply(j, step).delivery) && Guarantees.HistoryOk(Apply(j, step).delivery)
  {
    match step
    case Answer(_) =>
    case Deliver(p) =>
      CarefulIsDisciplined(j, p);
      ProtocolInvariant.StepKeepsInv(j.delivery, p);
      Guarantees.StepKeepsHistory(j.delivery, p);
    case Release(_, row) =>
      ProtocolInvariant.StepKeepsInv(j.delivery, Protocol.Accept(row));
      Guarantees.StepKeepsHistory(j.delivery, Protocol.Accept(row));
  }

  lemma {:induction false} CarefulRunKeepsInv(j: Joint, steps: seq<Step>)
    requires ProtocolInvariant.Inv(j.delivery) && Guarantees.HistoryOk(j.delivery)
    requires ValidRun(j, steps) && CarefulRun(j, steps)
    ensures Guarantees.HistoryOk(RunOf(j, steps).delivery)
    decreases |steps|
  {
    if |steps| != 0 {
      CarefulStepKeepsInv(j, steps[0]);
      CarefulRunKeepsInv(Apply(j, steps[0]), steps[1..]);
    }
  }

  /**
   * Whatever brokers and workers interleave: as long as the conversation state still lists an answer
   * command whenever a guard reads it with its row closed, and writes keep to their fences, no
   * command reaches the adapter twice without a release in between.
   */
  lemma ListedAnswersAreCalledOnce(j: Joint, steps: seq<Step>)
    requires Initial(j) && ValidRun(j, steps) && CarefulRun(j, steps)
    ensures Guarantees.AtMostOncePerRelease(RunOf(j, steps).delivery.log)
  {
    ProtocolInvariant.InitialInv(j.delivery);
    CarefulRunKeepsInv(j, steps);
  }

  // ----- The run in which it does not -----

  ghost predicate Reaches(j: Joint, u: Joint) {
    exists steps :: ValidRun(j, steps) && RunOf(j, steps) == u
  }

  lemma Stays(u: Joint)
    ensures Reaches(u, u)
  {
    assert ValidRun(u, []) && RunOf(u, []) == u;
  }

  lemma First(j: Joint, step: Step, k: Joint, u: Joint)
    requires Enabled(j, step) && Apply(j, step) == k && Reaches(k, u)
    ensures Reaches(j, u)
  {
    var rest :| ValidRun(k, rest) && RunOf(k, rest) == u;
    assert ([step] + rest)[1..] == rest;
    assert ValidRun(j, [step] + rest) && RunOf(j, [step] + rest) == u;
  }

  /** What the guards of a stretch of deliveries find, as long as the answers do not change. */
  ghost predicate GuardsFit(answers: Interactions.System, guards: Witnesses.Guards) {
    || (guards.AllPresent? && forall c <- answers.store.commandRows :: c in answers.store.aggregate.commands)
    || (guards.AllAbsent? && forall c <- answers.store.commandRows :: c !in answers.store.aggregate.commands)
  }

  /** A run of the delivery protocol, with such guards, is a stretch of the joint run. */
  lemma {:induction false} Stretch(j: Joint, steps: seq<Protocol.Step>, t: Protocol.System, kept: Witnesses.Kept, u: Joint)
    requires Witnesses.Leads(j.delivery, steps, t, kept) && GuardsFit(j.answers, kept.guards) && Reaches(j.(delivery := t), u)
    ensures Reaches(j, u)
    decreases |steps|
  {
    if |steps| == 0 {
      assert j.(delivery := t) == j;
    } else {
      var k := Joint(Protocol.Apply(j.delivery, steps[0]), j.answers);
      LeadsOn(j.delivery, steps, t, kept);
      Stretch(k, steps[1..], t, kept, u);
      First(j, Deliver(steps[0]), k, u);
    }
  }

  lemma LeadsOn(s: Protocol.System, steps: seq<Protocol.Step>, t: Protocol.System, kept: Witnesses.Kept)
    requires |steps| != 0 && Witnesses.Leads(s, steps, t, kept)
    ensures Protocol.Enabled(s, steps[0]) && !steps[0].Accept? && Witnesses.GuardsAre(kept.guards, steps[0])
    ensures Witnesses.Leads(Protocol.Apply(s, steps[0]), steps[1..], t, kept)
  {
    assert steps[0] in steps;
    assert forall step <- steps[1..] :: step in steps;
  }

  /** The answers after the first `n` steps of the run that releases a cancelled answer. */
  ghost function AnswersAfter(n: nat): Interactions.System
    requires n <= 4
  {
    if n == 0 then Interactions.Nobody() else Interactions.Apply(AnswersAfter(n - 1), Interactions.CancelThenRelease()[n - 1])
  }

  lemma AnswersRun(n: nat)
    requires n < 4
    ensures Interactions.Enabled(AnswersAfter(n), Interactions.CancelThenRelease()[n])
  {
    AnswersAfterThree();
  }

  lemma AnswersAfterThree()
    ensures AnswersAfter(1).store.aggregate == Interactions.REQUESTED && AnswersAfter(1).store.rows == map[]
    ensures Interactions.REQUESTED in AnswersAfter(1).seen && AnswersAfter(1).store.commandRows == map[]
    ensures 5 in AnswersAfter(3).store.rows && AnswersAfter(3).store.rows[5].command.None? && AnswersAfter(3).store.commandRows == map[]
    ensures AnswersAfter(3).store.aggregate == Interactions.CANCELLED_ONCE && Interactions.CANCELLED_ONCE in AnswersAfter(3).seen
  {
    var a := Interactions.Apply(Interactions.Nobody(), Interactions.CancelThenRelease()[0]);
    assert AnswersAfter(1) == a;
    var b := Interactions.Apply(a, Interactions.CancelThenRelease()[1]);
    assert AnswersAfter(2) == b && b.store.aggregate == Interactions.CANCELLED_ONCE;
    assert AnswersAfter(3) == Interactions.Apply(b, Interactions.CancelThenRelease()[2]);
  }

  /** After the release the state lists the command; after the late commit it no longer does. */
  lemma ReleasedThenDropped()
    ensures var y := AnswersAfter(4);
            && y.store.commandRows == map[7 := 5] && y.store.aggregate.commands == map[7 := 5]
            && Interactions.Enabled(y, Interactions.LateCommit())
            && var z := Interactions.Apply(y, Interactions.LateCommit());
            z.store.commandRows == map[7 := 5] && z.store.aggregate.commands == map[]
  {
    AnswersAfterThree();
    var c, y := AnswersAfter(3), AnswersAfter(4);
    assert y == Interactions.Apply(c, Interactions.CancelThenRelease()[3]);
    assert Interactions.CANCELLED_ONCE in y.seen;
  }

  function AnswerRow(): Commands.Command {
    Witnesses.Cmd(Commands.AnswerInteraction, Commands.Accepted, 0, None, None, None)
  }

  /** The conversation before anything is asked or accepted. */
  function Unasked(): Protocol.System {
    var s := Witnesses.Start(Commands.AnswerInteraction);
    s.(db := s.db.(commands := map[]))
  }

  lemma AcceptAnswer()
    ensures Protocol.Initial(Unasked())
    ensures Protocol.Enabled(Unasked(), Protocol.Accept(AnswerRow()))
    ensures Protocol.Apply(Unasked(), Protocol.Accept(AnswerRow())) == Witnesses.Start(Commands.AnswerInteraction)
  {
    assert map[][7 := AnswerRow()] == map[7 := AnswerRow()];
  }

  /** The two stretches of deliveries around the commit that drops the command. */
  lemma DeliveriesLead()
    ensures var late := Interactions.Apply(AnswersAfter(4), Interactions.LateCommit());
            Reaches(Joint(Witnesses.Start(Commands.AnswerInteraction), AnswersAfter(4)),
                    Joint(Witnesses.CalledAgain(Commands.AnswerInteraction), late))
  {
    ReleasedThenDropped();
    var kind := Commands.AnswerInteraction;
    var once, again := Witnesses.CalledOnce(kind, Protocol.Called, {Witnesses.C3}, []), Witnesses.CalledAgain(kind);
    var y := AnswersAfter(4);
    var z := Interactions.Apply(y, Interactions.LateCommit());
    var u := Joint(again, z);
    var present, absent := Witnesses.Kept(Witnesses.AllPresent, true, true), Witnesses.Kept(Witnesses.AllAbsent, true, true);
    Stays(u);
    Witnesses.SecondDeliveryLeads(kind, absent);
    var second :| Witnesses.Leads(once, second, again, absent);
    Stretch(Joint(once, z), second, again, absent, u);
    First(Joint(once, y), Answer(Interactions.LateCommit()), Joint(once, z), u);
    Witnesses.FirstCallLeads(kind);
    var first :| Witnesses.Leads(Witnesses.Start(kind), first, once, present);
    Stretch(Joint(Witnesses.Start(kind), y), first, once, present, u);
  }

  lemma AnswersLead(u: Joint)
    requires Reaches(Joint(Witnesses.Start(Commands.AnswerInteraction), AnswersAfter(4)), u)
    ensures Reaches(Joint(Unasked(), Interactions.Nobody()), u)
  {
    AcceptAnswer();
    AnswersAfterThree();
    AnswersRun(3);
    First(Joint(Unasked(), AnswersAfter(3)), Release(Interactions.CancelThenRelease()[3], AnswerRow()),
          Joint(Witnesses.Start(Commands.AnswerInteraction), AnswersAfter(4)), u);
    AnswersRun(2);
    First(Joint(Unasked(), AnswersAfter(2)), Answer(Interactions.CancelThenRelease()[2]), Joint(Unasked(), AnswersAfter(3)), u);
    AnswersRun(1);
    First(Joint(Unasked(), AnswersAfter(1)), Answer(Interactions.CancelThenRelease()[1]), Joint(Unasked(), AnswersAfter(2)), u);
    AnswersRun(0);
    First(Joint(Unasked(), AnswersAfter(0)), Answer(Interactions.CancelThenRelease()[0]), Joint(Unasked(), AnswersAfter(1)), u);
  }

  /**
   * A concrete joint run: an answer is released and its command delivered, an event-less commit built
   * before the release drops the command from the conversation state, the next guard therefore does
   * not find it, and the answer reaches the adapter a second time.
   */
  lemma DroppedAnswerIsCalledTwice()
    ensures exists steps :: var j := Joint(Unasked(), Interactions.Nobody());
              Initial(j) && ValidRun(j, steps) && !Guarantees.AtMostOncePerRelease(RunOf(j, steps).delivery.log)
  {
    var j := Joint(Unasked(), Interactions.Nobody());
    var u := Joint(Witnesses.CalledAgain(Commands.AnswerInteraction), Interactions.Apply(AnswersAfter(4), Interactions.LateCommit()));
    DeliveriesLead();
    AnswersLead(u);
    var steps :| ValidRun(j, steps) && RunOf(j, steps) == u;
    Witnesses.CalledAgainLog(Commands.AnswerInteraction);
    AcceptAnswer();
  }
}
