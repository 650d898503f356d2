/**
 The lock-free multi-producer single-consumer ring as a state machine whose actions are the
 individual shared-memory accesses of `produce`, `try_produce` and `consume`.

 Payloads are copied word by word, one action per word, so that any overlap of two copies
 of the same slot would show up as a torn item.

 `Config.modulus` is 0 for mathematical counters and 2^64 for the `size_t` counters of the code;
 both readings share the one transition function below.
 */
module RingProtocol {
  import opened Wrappers

  type Word = int
  type Item = seq<Word>

  datatype Config = Config(capacity: nat, width: nat, modulus: nat) {
    ghost predicate Unbounded() { modulus == 0 }

    /** A counter value as it is stored. */
    function Wrap(x: nat): nat { if modulus == 0 then x else x % modulus }

    /** `pos & MASK`; `RingCounters.MaskIsRemainder` relates the two spellings. */
    function Slot(pos: nat): nat
      requires capacity > 0
    {
      pos % capacity
    }
  }

  /** Where a producer thread stands inside `produce` or `try_produce`. */
  datatype ProducerPc =
    | Idle
    | Spinning(pos: nat, item: Item)              // position claimed, sequence test not passed yet
    | Cleared(pos: nat, item: Item)               // try_produce: test passed, not claimed yet
    | Copying(pos: nat, item: Item, copied: nat)  // test passed and claimed; `copied` words stored

  /** `todo` are the items the thread has yet to offer; `sent` those accepted, in call order. */
  datatype Producer = Producer(pc: ProducerPc, todo: seq<Item>, sent: seq<Item>)

  datatype ConsumerPc =
    | Waiting
    | Reading(got: Item)   // sequence test passed, words read so far
    | Recycled(got: Item)  // slot handed back, read_index_ not advanced yet

  datatype Claim = Claim(owner: nat, item: Item)

  /** `log` records every claimed position in claim order, `out` what consume has returned. */
  datatype State = State(
    writeIndex: nat,
    readIndex: nat,
    sequence: seq<nat>,
    data: seq<Item>,
    producers: seq<Producer>,
    consumer: ConsumerPc,
    log: seq<Claim>,
    out: seq<Item>)

  datatype Action =
    | FetchAdd(t: nat)
    | TestFree(t: nat)
    | TryTest(t: nat)
    | TryFetchAdd(t: nat)
    | StoreWord(t: nat)
    | Publish(t: nat)
    | TestReady
    | LoadWord
    | Recycle
    | Advance

  predicate Shaped(c: Config, s: State) {
    && c.capacity > 0
    && |s.sequence| == |s.data| == c.capacity
    && forall i | 0 <= i < |s.data| :: |s.data[i]| == c.width
  }

  /** The state after construction: slot i carries sequence i, payloads are arbitrary. */
  ghost predicate Init(c: Config, s: State) {
    && Shaped(c, s)
    && s.writeIndex == s.readIndex == 0
    && (forall i | 0 <= i < c.capacity :: s.sequence[i] == i)
    && s.consumer == Waiting
    && s.log == [] && s.out == []
    && forall t | 0 <= t < |s.producers| ::
         && s.producers[t].pc == Idle
         && s.producers[t].sent == []
         && forall i | 0 <= i < |s.producers[t].todo| :: |s.producers[t].todo[i]| == c.width
  }

  /** One atomic access; None when the thread named by the action is not at that access. */
  function Step(c: Config, s: State, a: Action): Option<State>
    requires Shaped(c, s)
  {
    match a
    case FetchAdd(t) => if t < |s.producers| then FetchAddStep(c, s, t) else None
    case TestFree(t) => if t < |s.producers| then TestFreeStep(c, s, t) else None
    case TryTest(t) => if t < |s.producers| then TryTestStep(c, s, t) else None
    case TryFetchAdd(t) => if t < |s.producers| then TryFetchAddStep(c, s, t) else None
    case StoreWord(t) => if t < |s.producers| then StoreWordStep(c, s, t) else None
    case Publish(t) => if t < |s.producers| then PublishStep(c, s, t) else None
    case TestReady => TestReadyStep(c, s)
    case LoadWord => LoadWordStep(c, s)
    case Recycle => RecycleStep(c, s)
    case Advance => AdvanceStep(c, s)
  }

  function WithPc(s: State, t: nat, pc: ProducerPc): State
    requires t < |s.producers|
  {
    s.(producers := s.producers[t := s.producers[t].(pc := pc)])
  }

  function FetchAddStep(c: Config, s: State, t: nat): Option<State>
    requires t < |s.producers|
  {
    var p := s.producers[t];
    if p.pc != Idle || p.todo == [] then None
    else
      var item := p.todo[0];
      Some(s.(writeIndex := c.Wrap(s.writeIndex + 1),
              log := s.log + [Claim(t, item)],
              producers := s.producers[t := Producer(Spinning(s.writeIndex, item), p.todo[1..], p.sent + [item])]))
  }

  function TestFreeStep(c: Config, s: State, t: nat): Option<State>
    requires Shaped(c, s) && t < |s.producers|
  {
    var p := s.producers[t];
    if !p.pc.Spinning? then None
    else if s.sequence[c.Slot(p.pc.pos)] != p.pc.pos then Some(s)  // spin
    else Some(WithPc(s, t, Copying(p.pc.pos, p.pc.item, 0)))
  }

  /** try_produce is for a lone producer; a refused item is dropped. */
  function TryTestStep(c: Config, s: State, t: nat): Option<State>
    requires Shaped(c, s) && t < |s.producers|
  {
    var p := s.producers[t];
    if |s.producers| != 1 || p.pc != Idle || p.todo == [] then None
    else if s.sequence[c.Slot(s.writeIndex)] != s.writeIndex then
      Some(s.(producers := s.producers[t := p.(todo := p.todo[1..])]))
    else
      Some(s.(producers := s.producers[t := p.(pc := Cleared(s.writeIndex, p.todo[0]), todo := p.todo[1..])]))
  }

  function TryFetchAddStep(c: Config, s: State, t: nat): Option<State>
    requires t < |s.producers|
  {
    var p := s.producers[t];
    if !p.pc.Cleared? then None
    else
      var item := p.pc.item;
      Some(s.(writeIndex := c.Wrap(s.writeIndex + 1),
              log := s.log + [Claim(t, item)],
              producers := s.producers[t := Producer(Copying(p.pc.pos, item, 0), p.todo, p.sent + [item])]))
  }

  function StoreWordStep(c: Config, s: State, t: nat): Option<State>
    requires Shaped(c, s) && t < |s.producers|
  {
    var pc := s.producers[t].pc;
    if !pc.Copying? || pc.copied >= c.width || pc.copied >= |pc.item| then None
    else
      var i := c.Slot(pc.pos);
      var s' := s.(data := s.data[i := s.data[i][pc.copied := pc.item[pc.copied]]]);
      Some(WithPc(s', t, pc.(copied := pc.copied + 1)))
  }

  function PublishStep(c: Config, s: State, t: nat): Option<State>
    requires Shaped(c, s) && t < |s.producers|
  {
    var pc := s.producers[t].pc;
    if !pc.Copying? || pc.copied != c.width then None
    else
      var s' := s.(sequence := s.sequence[c.Slot(pc.pos) := c.Wrap(pc.pos + 1)]);
      Some(WithPc(s', t, Idle))
  }

  function TestReadyStep(c: Config, s: State): Option<State>
    requires Shaped(c, s)
  {
    if !s.consumer.Waiting? then None
    else if s.sequence[c.Slot(s.readIndex)] != c.Wrap(s.readIndex + 1) then Some(s)  // buffer empty
    else Some(s.(consumer := Reading([])))
  }

  function LoadWordStep(c: Config, s: State): Option<State>
    requires Shaped(c, s)
  {
    if !s.consumer.Reading? || |s.consumer.got| >= c.width then None
    else
      var got := s.consumer.got;
      Some(s.(consumer := Reading(got + [s.data[c.Slot(s.readIndex)][|got|]])))
  }

  function RecycleStep(c: Config, s: State): Option<State>
    requires Shaped(c, s)
  {
    if !s.consumer.Reading? || |s.consumer.got| != c.width then None
    else
      Some(s.(sequence := s.sequence[c.Slot(s.readIndex) := c.Wrap(s.readIndex + c.capacity)],
              consumer := Recycled(s.consumer.got)))
  }

  function AdvanceStep(c: Config, s: State): Option<State> {
    if !s.consumer.Recycled? then None
    else
      Some(s.(readIndex := c.Wrap(s.readIndex + 1),
              out := s.out + [s.consumer.got],
              consumer := Waiting))
  }

  lemma StepKeepsShape(c: Config, s: State, a: Action)
    requires Shaped(c, s) && Step(c, s, a).Some?
    ensures Shaped(c, Step(c, s, a).value)
  {
  }

  /** Any interleaving: a finite sequence of actions, each performed by whichever thread is named. */
  ghost predicate Reaches(c: Config, s: State, actions: seq<Action>, s': State)
    requires Shaped(c, s)
    decreases |actions|
  {
    if actions == [] then s' == s
    else
      && Step(c, s, actions[0]).Some?
      && (StepKeepsShape(c, s, actions[0]);
          Reaches(c, Step(c, s, actions[0]).value, actions[1..], s'))
  }

  function Items(log: seq<Claim>): (items: seq<Item>)
    ensures |items| == |log|
    ensures forall i | 0 <= i < |log| :: items[i] == log[i].item
  {
    seq(|log|, i requires 0 <= i < |log| => log[i].item)
  }

  /** The items producer t put into the log, in log order. */
  function ItemsOf(log: seq<Claim>, t: nat): seq<Item> {
    if log == [] then []
    else
      var last := log[|log| - 1];
      ItemsOf(log[..|log| - 1], t) + if last.owner == t then [last.item] else []
  }
}
