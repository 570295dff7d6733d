/** The cached device model under concurrent readers, reconnects and
    invalidations: every step a task takes under a lock is one step here. */
module DeviceModel {
  import opened Wrappers
  import NL = NameList

  /** Association numbers have 64 bits. */
  const NUMBERS: nat := 0x1_0000_0000_0000_0000

  /** The number of the n-th association of a client. */
  function Number(epoch: nat): nat {
    epoch % NUMBERS
  }

  /** A name, and the association it was answered on. */
  datatype Tagged = Tagged(name: NL.Name, epoch: nat)

  datatype LogicalDevice = LogicalDevice(name: Tagged, variables: seq<Tagged>)

  type Model = seq<LogicalDevice>

  /** `association` is a number; `since` is the association that bore it when it
      was read. No step looks at `since` or at the tag of a name. */
  datatype Bearing = Bearing(association: nat, since: nat)

  datatype CachedModel = CachedModel(on: Bearing, model: Model)

  /** Where a reader of the model stands, and the number it read when it began.
      A task that peeks takes the cached model or none, without a request. */
  datatype Task =
    | Start
    | Began(on: Bearing)
    | Listing(on: Bearing, all: seq<Tagged>, after: Option<NL.Name>)
    | Browsing(on: Bearing, pending: seq<Tagged>, lds: Model, all: seq<Tagged>, after: Option<NL.Name>)
    | Recheck(on: Bearing, lds: Model)
    | Writing(on: Bearing, lds: Model)
    | Returned(on: Bearing, model: Model)
    | Failed
    | PeekStart
    | PeekBegan(on: Bearing)
    | Peeked(on: Bearing, hit: Option<CachedModel>)

  /** `epoch` counts the associations established. */
  datatype State = State(limit: nat, epoch: nat, connected: bool, cache: Option<CachedModel>, tasks: seq<Task>)

  function Initial(limit: nat): State {
    State(limit, 0, false, None, [])
  }

  datatype Step =
    | Connect
    | Close
    | Clear
    | Spawn
    | Peek
    | Advance(task: nat, answer: Option<NL.Page>)

  // ----- One request of a walk -----

  function Names(all: seq<Tagged>): (names: seq<NL.Name>)
    ensures |names| == |all| && forall i :: 0 <= i < |all| ==> names[i] == all[i].name
  {
    seq(|all|, i requires 0 <= i < |all| => all[i].name)
  }

  /** `all`, then the names of a page not yet in it, answered on `epoch`. */
  function AddTagged(all: seq<Tagged>, page: seq<NL.Name>, epoch: nat): seq<Tagged> {
    if |page| == 0 then all
    else
      var front, last := AddTagged(all, page[..|page| - 1], epoch), page[|page| - 1];
      if last in Names(front) then front else front + [Tagged(last, epoch)]
  }

  datatype Turn = More(all: seq<Tagged>, after: Option<NL.Name>) | Finished(all: seq<Tagged>) | Broken

  /** What an answer does to a walk. */
  function WalkTurn(s: State, all: seq<Tagged>, after: Option<NL.Name>, answer: Option<NL.Page>): Turn {
    if !s.connected || answer.None? then Broken
    else
      var p := answer.value;
      var all' := AddTagged(all, p.names, s.epoch);
      if |all'| > s.limit then Broken
      else if !p.more then Finished(all')
      else if NL.Stalls(Names(all), after, p) then Broken
      else More(all', Some(p.names[|p.names| - 1]))
  }

  // ----- The steps -----

  /** The number of the current association. */
  function Current(s: State): Bearing {
    Bearing(Number(s.epoch), s.epoch)
  }

  /** The cached model, when it was read on the association of this number. */
  function ModelOf(s: State, association: nat): Option<CachedModel> {
    if s.cache.Some? && s.cache.value.on.association == association then s.cache else None
  }

  /** With the domain names read, the first of them is browsed. */
  function Listed(on: Bearing, all: seq<Tagged>): Task {
    if |all| == 0 then Recheck(on, []) else Browsing(on, all, [], [], None)
  }

  function Browsed(on: Bearing, pending: seq<Tagged>, lds: Model, all: seq<Tagged>): Task
    requires |pending| > 0
  {
    var lds' := lds + [LogicalDevice(pending[0], all)];
    if |pending| == 1 then Recheck(on, lds') else Browsing(on, pending[1..], lds', [], None)
  }

  function NextTask(s: State, t: Task, answer: Option<NL.Page>): Task {
    match t
    case Start => Began(Current(s))
    case Began(on) =>
      var hit := ModelOf(s, on.association);
      if hit.Some? then Returned(hit.value.on, hit.value.model) else Listing(on, [], None)
    case Listing(on, all, after) =>
      (match WalkTurn(s, all, after, answer)
       case More(all', after') => Listing(on, all', after')
       case Finished(all') => Listed(on, all')
       case Broken => Failed)
    case Browsing(on, pending, lds, all, after) =>
      if |pending| == 0 then t
      else
        (match WalkTurn(s, all, after, answer)
         case More(all', after') => Browsing(on, pending, lds, all', after')
         case Finished(all') => Browsed(on, pending, lds, all')
         case Broken => Failed)
    case Recheck(on, lds) => if Number(s.epoch) != on.association then Start else Writing(on, lds)
    case Writing(on, lds) => Returned(on, lds)
    case Returned(_, _) => t
    case Failed => t
    case PeekStart => PeekBegan(Current(s))
    case PeekBegan(on) => Peeked(on, ModelOf(s, on.association))
    case Peeked(_, _) => t
  }

  function NextCache(s: State, t: Task): Option<CachedModel> {
    if t.Writing? then Some(CachedModel(t.on, t.lds)) else s.cache
  }

  function Next(s: State, step: Step): State {
    match step
    case Connect => s.(epoch := s.epoch + 1, connected := true)
    case Close => s.(connected := false)
    case Clear => s.(cache := None)
    case Spawn => s.(tasks := s.tasks + [Start])
    case Peek => s.(tasks := s.tasks + [PeekStart])
    case Advance(i, answer) =>
      if i < |s.tasks| then
        s.(cache := NextCache(s, s.tasks[i]), tasks := s.tasks[i := NextTask(s, s.tasks[i], answer)])
      else s
  }

  function Run(s: State, steps: seq<Step>): State
    decreases |steps|
  {
    if |steps| == 0 then s else Run(Next(s, steps[0]), steps[1..])
  }

  // ----- Purity -----

  /** The names were answered on associations from `lo` to `hi`. */
  predicate Between(all: seq<Tagged>, lo: nat, hi: nat) {
    forall i :: 0 <= i < |all| ==> lo <= all[i].epoch <= hi
  }

  predicate ModelBetween(model: Model, lo: nat, hi: nat) {
    forall i :: 0 <= i < |model| ==> lo <= model[i].name.epoch <= hi && Between(model[i].variables, lo, hi)
  }

  /** Every name of the model was answered on the one association `a`. */
  predicate Pure(model: Model, a: nat) {
    ModelBetween(model, a, a)
  }

  /** The association `since` had been established and bore the number. */
  predicate Borne(on: Bearing, epoch: nat) {
    on.since <= epoch && Number(on.since) == on.association
  }

  /** What a task holds was answered since it began, and once it has checked the
      number again, on that one association. */
  predicate TaskOk(t: Task, epoch: nat) {
    match t
    case Start => true
    case Began(on) => Borne(on, epoch)
    case Listing(on, all, _) => Borne(on, epoch) && Between(all, on.since, epoch)
    case Browsing(on, pending, lds, all, _) =>
      && Borne(on, epoch) && Between(pending, on.since, epoch)
      && ModelBetween(lds, on.since, epoch) && Between(all, on.since, epoch)
    case Recheck(on, lds) => Borne(on, epoch) && ModelBetween(lds, on.since, epoch)
    case Writing(on, lds) => Borne(on, epoch) && Pure(lds, on.since)
    case Returned(on, model) => Borne(on, epoch) && Pure(model, on.since)
    case Failed => true
    case PeekStart => true
    case PeekBegan(on) => Borne(on, epoch)
    case Peeked(on, hit) =>
      Borne(on, epoch) && CachedOk(hit, epoch) && (hit.Some? ==> hit.value.on.association == on.association)
  }

  predicate CachedOk(cached: Option<CachedModel>, epoch: nat) {
    cached.Some? ==> Borne(cached.value.on, epoch) && Pure(cached.value.model, cached.value.on.since)
  }

  predicate CacheOk(s: State) {
    CachedOk(s.cache, s.epoch)
  }

  predicate Inv(s: State) {
    && CacheOk(s)
    && forall i :: 0 <= i < |s.tasks| ==> TaskOk(s.tasks[i], s.epoch)
  }

  /** Fewer than 2^64 associations were established while a read that now checks
      the number again was under way. */
  predicate Timely(s: State, step: Step) {
    step.Advance? && step.task < |s.tasks| && s.tasks[step.task].Recheck? ==>
      s.epoch < s.tasks[step.task].on.since + NUMBERS
  }

  predicate TimelyRun(s: State, steps: seq<Step>)
    decreases |steps|
  {
    |steps| > 0 ==> Timely(s, steps[0]) && TimelyRun(Next(s, steps[0]), steps[1..])
  }

  /** Associations that are fewer than 2^64 apart have different numbers. */
  lemma NumbersDiffer(a: nat, b: nat)
    requires a <= b < a + NUMBERS && Number(a) == Number(b)
    ensures a == b
  {
    var d := b - a;
    assert a == a / NUMBERS * NUMBERS + Number(a) && b == b / NUMBERS * NUMBERS + Number(b);
    assert d == (b / NUMBERS - a / NUMBERS) * NUMBERS;
  }

  lemma {:induction false} AddTaggedBetween(all: seq<Tagged>, page: seq<NL.Name>, epoch: nat, lo: nat)
    requires Between(all, lo, epoch) && lo <= epoch
    ensures Between(AddTagged(all, page, epoch), lo, epoch)
    decreases |page|
  {
    if |page| > 0 {
      AddTaggedBetween(all, page[..|page| - 1], epoch, lo);
    }
  }

  lemma WalkTurnBetween(s: State, all: seq<Tagged>, after: Option<NL.Name>, answer: Option<NL.Page>, lo: nat)
    requires Between(all, lo, s.epoch) && lo <= s.epoch
    ensures var turn := WalkTurn(s, all, after, answer); !turn.Broken? ==> Between(turn.all, lo, s.epoch)
  {
    if answer.Some? {
      AddTaggedBetween(all, answer.value.names, s.epoch, lo);
    }
  }

  /** A later association only widens the range. */
  lemma TaskOkLater(t: Task, epoch: nat)
    requires TaskOk(t, epoch)
    ensures TaskOk(t, epoch + 1)
  {
  }

  lemma BrowsedOk(on: Bearing, pending: seq<Tagged>, lds: Model, all: seq<Tagged>, epoch: nat)
    requires |pending| > 0 && Borne(on, epoch)
    requires Between(pending, on.since, epoch) && ModelBetween(lds, on.since, epoch) && Between(all, on.since, epoch)
    ensures TaskOk(Browsed(on, pending, lds, all), epoch)
  {
  }

  lemma NextTaskOk(s: State, t: Task, answer: Option<NL.Page>)
    requires CacheOk(s) && TaskOk(t, s.epoch)
    requires t.Recheck? ==> s.epoch < t.on.since + NUMBERS
    ensures TaskOk(NextTask(s, t, answer), s.epoch)
  {
    match t
    case Listing(on, all, after) =>
      WalkTurnBetween(s, all, after, answer, on.since);
    case Browsing(on, pending, lds, all, after) =>
      WalkTurnBetween(s, all, after, answer, on.since);
      var turn := WalkTurn(s, all, after, answer);
      if turn.Finished? && |pending| > 0 {
        BrowsedOk(on, pending, lds, turn.all, s.epoch);
      }
    case Recheck(on, lds) =>
      if Number(s.epoch) == on.association {
        NumbersDiffer(on.since, s.epoch);
      }
    case Start =>
    case Began(_) =>
    case Writing(_, _) =>
    case Returned(_, _) =>
    case Failed =>
    case PeekStart =>
    case PeekBegan(_) =>
    case Peeked(_, _) =>
  }

  lemma NextInv(s: State, step: Step)
    requires Inv(s) && Timely(s, step)
    ensures Inv(Next(s, step))
  {
    match step
    case Connect =>
      forall i | 0 <= i < |s.tasks|
        ensures TaskOk(s.tasks[i], s.epoch + 1)
      {
        TaskOkLater(s.tasks[i], s.epoch);
      }
    case Advance(i, answer) =>
      if i < |s.tasks| {
        NextTaskOk(s, s.tasks[i], answer);
      }
    case Close =>
    case Clear =>
    case Spawn =>
    case Peek =>
  }

  lemma {:induction false} RunInv(s: State, steps: seq<Step>)
    requires Inv(s) && TimelyRun(s, steps)
    ensures Inv(Run(s, steps))
    decreases |steps|
  {
    if |steps| > 0 {
      NextInv(s, steps[0]);
      RunInv(Next(s, steps[0]), steps[1..]);
    }
  }

  /** Fewer than 2^64 associations lie between these. */
  predicate Near(a: nat, b: nat) {
    a < b + NUMBERS && b < a + NUMBERS
  }

  /** A task that returned a model holds only names answered on one association
      that bore its number; and one that peeked, only names of the very
      association whose number it read first, unless 2^64 associations lie
      between. */
  predicate TaskPure(t: Task, epoch: nat) {
    match t
    case Returned(on, model) => Borne(on, epoch) && Pure(model, on.since)
    case Peeked(on, hit) =>
      && CachedOk(hit, epoch)
      && (hit.Some? && Near(on.since, hit.value.on.since) ==> Pure(hit.value.model, on.since))
    case _ => true
  }

  lemma TaskIsPure(t: Task, epoch: nat)
    requires TaskOk(t, epoch)
    ensures TaskPure(t, epoch)
  {
    if t.Peeked? && t.hit.Some? {
      var a, b := t.on.since, t.hit.value.on.since;
      if Near(a, b) {
        if a <= b {
          NumbersDiffer(a, b);
        } else {
          NumbersDiffer(b, a);
        }
      }
    }
  }

  /** Purity: in any interleaving of readers, connects, disconnects and
      invalidations, whatever the servers answer, as long as no single read lasts
      through 2^64 new associations, every model cached or returned, with a
      request or without, holds only names answered on one association that bore
      its number. */
  lemma Purity(limit: nat, steps: seq<Step>)
    requires TimelyRun(Initial(limit), steps)
    ensures var s := Run(Initial(limit), steps);
            CacheOk(s) && forall i :: 0 <= i < |s.tasks| ==> TaskPure(s.tasks[i], s.epoch)
  {
    RunInv(Initial(limit), steps);
    var s := Run(Initial(limit), steps);
    forall i | 0 <= i < |s.tasks|
      ensures TaskPure(s.tasks[i], s.epoch)
    {
      TaskIsPure(s.tasks[i], s.epoch);
    }
  }

  lemma {:induction false} EpochGrows(s: State, steps: seq<Step>)
    ensures s.epoch <= Run(s, steps).epoch
    decreases |steps|
  {
    if |steps| > 0 {
      EpochGrows(Next(s, steps[0]), steps[1..]);
    }
  }

  lemma {:induction false} FewAreTimely(s: State, steps: seq<Step>)
    requires Run(s, steps).epoch < NUMBERS
    ensures TimelyRun(s, steps)
    decreases |steps|
  {
    EpochGrows(s, steps);
    if |steps| > 0 {
      FewAreTimely(Next(s, steps[0]), steps[1..]);
    }
  }

  /** Within the first 2^64 associations a number is an association, and the
      names are those of the association that the number says. */
  lemma PurityByNumber(limit: nat, steps: seq<Step>)
    requires Run(Initial(limit), steps).epoch < NUMBERS
    ensures var s := Run(Initial(limit), steps);
            && (s.cache.Some? ==> Pure(s.cache.value.model, s.cache.value.on.association))
            && (forall i :: 0 <= i < |s.tasks| && s.tasks[i].Returned? ==>
                  Pure(s.tasks[i].model, s.tasks[i].on.association))
            && (forall i :: 0 <= i < |s.tasks| && s.tasks[i].Peeked? && s.tasks[i].hit.Some? ==>
                  Pure(s.tasks[i].hit.value.model, s.tasks[i].on.association))
  {
    FewAreTimely(Initial(limit), steps);
    RunInv(Initial(limit), steps);
    var s := Run(Initial(limit), steps);
    forall i | 0 <= i < |s.tasks| && (s.tasks[i].Returned? || s.tasks[i].Peeked?)
      ensures s.tasks[i].Returned? ==> Pure(s.tasks[i].model, s.tasks[i].on.association)
      ensures s.tasks[i].Peeked? && s.tasks[i].hit.Some? ==>
                Pure(s.tasks[i].hit.value.model, s.tasks[i].on.association)
    {
      assert TaskOk(s.tasks[i], s.epoch);
    }
  }

  // ----- The walk is the GetNameList walk -----

  /** What a page adds is what the GetNameList walk adds. */
  lemma {:induction false} AddTaggedNames(all: seq<Tagged>, page: seq<NL.Name>, epoch: nat)
    ensures Names(AddTagged(all, page, epoch)) == NL.Added(Names(all), page)
    decreases |page|
  {
    if |page| > 0 {
      var front, last := AddTagged(all, page[..|page| - 1], epoch), page[|page| - 1];
      AddTaggedNames(all, page[..|page| - 1], epoch);
      assert Names(front + [Tagged(last, epoch)]) == Names(front) + [last];
    }
  }

  // ----- A number used again -----

  function Connects(k: nat): seq<Step> {
    if k == 0 then [] else [Connect] + Connects(k - 1)
  }

  lemma {:induction false} RunConnects(s: State, k: nat)
    requires k > 0
    ensures Run(s, Connects(k)) == s.(epoch := s.epoch + k, connected := true)
    decreases k
  {
    assert Connects(k)[1..] == Connects(k - 1);
    var s' := Next(s, Connect);
    assert Run(s, Connects(k)) == Run(s', Connects(k - 1));
    if k > 1 {
      RunConnects(s', k - 1);
    } else {
      assert Connects(0) == [];
    }
  }

  lemma {:induction false} RunConcat(s: State, a: seq<Step>, b: seq<Step>)
    ensures Run(s, a + b) == Run(Run(s, a), b)
    decreases |a|
  {
    if |a| == 0 {
      assert a + b == b;
    } else {
      assert (a + b)[1..] == a[1..] + b;
      RunConcat(Next(s, a[0]), a[1..], b);
    }
  }

  /** One step more. */
  lemma Then(s: State, a: seq<Step>, step: Step, reached: State) returns (b: seq<Step>)
    requires Run(s, a) == reached
    ensures Run(s, b) == Next(reached, step)
  {
    b := a + [step];
    RunConcat(s, a, [step]);
    assert [step][1..] == [];
  }

  lemma OnlyTask(s: State, t: Task, answer: Option<NL.Page>)
    requires s.tasks == [t]
    ensures Next(s, Advance(0, answer)) == s.(cache := NextCache(s, t), tasks := [NextTask(s, t, answer)])
  {
    assert [t][0 := NextTask(s, t, answer)] == [NextTask(s, t, answer)];
  }

  lemma AddOne(all: seq<Tagged>, name: NL.Name, epoch: nat)
    requires name !in Names(all)
    ensures AddTagged(all, [name], epoch) == all + [Tagged(name, epoch)]
    ensures |NL.Added(Names(all), [name])| == |all| + 1
  {
    assert [name][..0] == [];
  }

  /** The first association and its number. */
  const FIRST := Bearing(1, 1)

  /** A reader that got the name A on the first association and then no more. */
  lemma ReadA(limit: nat) returns (steps: seq<Step>)
    requires limit >= 1
    ensures Run(Initial(limit), steps) == State(limit, 1, true, None, [Listing(FIRST, [Tagged("A", 1)], Some("A"))])
  {
    var s0 := Initial(limit);
    steps := Then(s0, [], Spawn, s0);
    var s1 := State(limit, 0, false, None, [Start]);
    steps := Then(s0, steps, Connect, s1);
    var s2 := State(limit, 1, true, None, [Start]);
    steps := Then(s0, steps, Advance(0, None), s2);
    var s3 := State(limit, 1, true, None, [Began(FIRST)]);
    steps := Then(s0, steps, Advance(0, None), s3);
    var s4 := State(limit, 1, true, None, [Listing(FIRST, [], None)]);
    AddOne([], "A", 1);
    assert [] + [Tagged("A", 1)] == [Tagged("A", 1)] && Names([]) == [];
    OnlyTask(s4, s4.tasks[0], Some(NL.Page(["A"], true)));
    steps := Then(s0, steps, Advance(0, Some(NL.Page(["A"], true))), s4);
  }

  /** Its next page comes on an association of the same number. */
  lemma ReadB(limit: nat, epoch: nat, a: Tagged)
    requires limit >= 2 && Number(epoch) == 1 && a.name == "A"
    ensures var s := State(limit, epoch, true, None, [Listing(FIRST, [a], Some("A"))]);
            Next(s, Advance(0, Some(NL.Page(["B"], false))))
            == s.(tasks := [Browsing(FIRST, [a, Tagged("B", epoch)], [], [], None)])
  {
    var s := State(limit, epoch, true, None, [Listing(FIRST, [a], Some("A"))]);
    AddOne([a], "B", epoch);
    assert [a] + [Tagged("B", epoch)] == [a, Tagged("B", epoch)];
    OnlyTask(s, s.tasks[0], Some(NL.Page(["B"], false)));
  }

  lemma Browse(s: State, a: Tagged, b: Tagged)
    requires s.connected
    ensures var empty := Advance(0, Some(NL.Page([], false)));
            var lds := [LogicalDevice(a, []), LogicalDevice(b, [])];
            && Next(s.(tasks := [Browsing(FIRST, [a, b], [], [], None)]), empty)
               == s.(tasks := [Browsing(FIRST, [b], lds[..1], [], None)])
            && Next(s.(tasks := [Browsing(FIRST, [b], lds[..1], [], None)]), empty)
               == s.(tasks := [Recheck(FIRST, lds)])
  {
    var answer := Some(NL.Page([], false));
    var s1, s2 := s.(tasks := [Browsing(FIRST, [a, b], [], [], None)]),
                  s.(tasks := [Browsing(FIRST, [b], [LogicalDevice(a, [])], [], None)]);
    OnlyTask(s1, s1.tasks[0], answer);
    assert [a, b][1..] == [b] && [] + [LogicalDevice(a, [])] == [LogicalDevice(a, [])];
    OnlyTask(s2, s2.tasks[0], answer);
    var lds := [LogicalDevice(a, []), LogicalDevice(b, [])];
    assert lds[..1] == [LogicalDevice(a, [])] && lds[..1] + [LogicalDevice(b, [])] == lds;
  }

  /** The condition of Purity is needed: when a number comes round again during
      a read, the model returned mixes two associations. */
  lemma ReusedNumberMixes(limit: nat) returns (steps: seq<Step>)
    requires limit >= 2
    ensures var s := Run(Initial(limit), steps);
            && |s.tasks| == 1 && s.tasks[0].Returned?
            && forall a :: !Pure(s.tasks[0].model, a)
  {
    var s0 := Initial(limit);
    var a, b := Tagged("A", 1), Tagged("B", 1 + NUMBERS);
    var empty := Advance(0, Some(NL.Page([], false)));
    steps := ReadA(limit);
    RunConcat(s0, steps, Connects(NUMBERS));
    RunConnects(Run(s0, steps), NUMBERS);
    steps := steps + Connects(NUMBERS);
    var s := State(limit, 1 + NUMBERS, true, None, [Listing(FIRST, [a], Some("A"))]);
    ReadB(limit, 1 + NUMBERS, a);
    Browse(s, a, b);
    var lds := [LogicalDevice(a, []), LogicalDevice(b, [])];
    steps := Then(s0, steps, Advance(0, Some(NL.Page(["B"], false))), s);
    steps := Then(s0, steps, empty, s.(tasks := [Browsing(FIRST, [a, b], [], [], None)]));
    steps := Then(s0, steps, empty, s.(tasks := [Browsing(FIRST, [b], lds[..1], [], None)]));
    steps := Then(s0, steps, Advance(0, None), s.(tasks := [Recheck(FIRST, lds)]));
    steps := Then(s0, steps, Advance(0, None), s.(tasks := [Writing(FIRST, lds)]));
    var model := Run(s0, steps).tasks[0].model;
    assert model == lds;
    assert lds[0].name.epoch != lds[1].name.epoch;
  }
}
