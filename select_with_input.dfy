/**
 * The `SelectWithInput` form control (components/FormItem/SelectWithInput):
 * a searchable select that also accepts free text. Its state is the selected
 * `value` and `inputVal`, the text typed into the search box and not yet
 * committed. Leaving the box commits the typed text as if it had been picked.
 *
 * The transitions are pure functions from state to state plus the callbacks
 * they fire; the component class keeps the state in fields and records the
 * callbacks it fires in `effects`, and each of its methods is proved to do
 * what the matching function says.
 */
module SelectWithInput {
  import opened Wrappers
  import opened Js

  /**
   * The props the transitions read: the controlled `value`, the field `name`,
   * whether `formRef?.current` is set and whether an `onChange` callback is
   * supplied.
   */
  datatype Props = Props(value: JsValue, name: JsValue, hasFormRef: bool, hasOnChange: bool)

  /** A callback the component fires. */
  datatype Effect =
    | SetFieldsValue(field: string, value: JsValue)   // formRef.current.setFieldsValue({ [name]: val })
    | ChangeCallback(value: JsValue)                  // props.onChange(val)

  function EffectValue(e: Effect): JsValue {
    match e
    case SetFieldsValue(_, val) => val
    case ChangeCallback(val) => val
  }

  datatype State = State(value: JsValue, inputVal: JsValue)

  /** A transition's outcome: the new state and the callbacks fired, in order. */
  datatype Step = Step(state: State, effects: seq<Effect>)

  /** The state the constructor sets: nothing selected, nothing typed. */
  const Initial: State := State(Undefined, Undefined)

  // ---------------------------------------------------------------------------
  // Transitions

  /** `getDerivedStateFromProps`: the partial state `{ value }` when the prop differs, `null` otherwise. */
  function DerivedStateFromProps(next: Props, prev: State): (r: Option<JsValue>)
    ensures r.None? <==> StrictEquals(next.value, prev.value)
    ensures r.Some? ==> r.value == next.value
  {
    if !StrictEquals(next.value, prev.value) then Some(next.value) else None
  }

  /**
   * The state after React merges what `getDerivedStateFromProps` returned:
   * the prop's value always wins, the typed text is never touched, and a
   * prop equal to the state changes nothing.
   */
  function Synced(props: Props, s: State): (r: State)
    ensures r.value == props.value
    ensures r.inputVal == s.inputVal
    ensures StrictEquals(props.value, s.value) ==> r == s
  {
    match DerivedStateFromProps(props, s)
    case None => s
    case Some(val) => s.(value := val)
  }

  /** The callbacks of `onChange(val)`: the form field first, then the `onChange` prop. */
  function ChangeEffects(props: Props, val: JsValue): (r: seq<Effect>)
    ensures SetFieldsValue(ToString(props.name), val) in r <==> props.hasFormRef
    ensures ChangeCallback(val) in r <==> props.hasOnChange
    ensures forall e :: e in r ==> EffectValue(e) == val
    ensures |r| == (if props.hasFormRef then 1 else 0) + (if props.hasOnChange then 1 else 0)
    ensures props.hasFormRef ==> r[0] == SetFieldsValue(ToString(props.name), val)
  {
    (if props.hasFormRef then [SetFieldsValue(ToString(props.name), val)] else [])
    + (if props.hasOnChange then [ChangeCallback(val)] else [])
  }

  /** `onChange(val)`: select `val`, clear the typed text, then fire the callbacks. */
  function Change(props: Props, s: State, val: JsValue): (r: Step)
    ensures r.state.value == val && r.state.inputVal == Undefined
    ensures r.effects == ChangeEffects(props, val)
  {
    Step(State(val, Undefined), ChangeEffects(props, val))
  }

  /** `onSearch(text)`: keep the typed text when it is truthy, otherwise leave the state alone. */
  function Search(s: State, text: JsValue): (r: State)
    ensures Truthy(text) ==> r.inputVal == text && r.value == s.value
    ensures !Truthy(text) ==> r == s
  {
    if Truthy(text) then s.(inputVal := text) else s
  }

  /** `onBlur()`: commit the typed text as `onChange` would, or do nothing when there is none. */
  function Blur(props: Props, s: State): (r: Step)
    ensures Truthy(s.inputVal) ==> r == Change(props, s, s.inputVal)
    ensures !Truthy(s.inputVal) ==> r == Step(s, [])
  {
    if Truthy(s.inputVal) then Change(props, s, s.inputVal) else Step(s, [])
  }

  // ---------------------------------------------------------------------------
  // Properties of the transitions

  /** Syncing twice with the same props is syncing once. */
  lemma SyncedIdempotent(props: Props, s: State)
    ensures Synced(props, Synced(props, s)) == Synced(props, s)
  {
  }

  /** A second blur right after a first does nothing: the first one cleared the typed text. */
  lemma BlurTwice(props: Props, s: State)
    ensures Blur(props, Blur(props, s).state) == Step(Blur(props, s).state, [])
  {
  }

  /** Typing non-empty text and leaving the box selects that text, clears the buffer and reports it. */
  lemma SearchThenBlurCommits(props: Props, s: State, text: JsValue)
    requires Truthy(text)
    ensures Blur(props, Search(s, text)).state == State(text, Undefined)
    ensures Blur(props, Search(s, text)).effects == ChangeEffects(props, text)
  {
  }

  /** Clearing the search box keeps whatever text was typed before. */
  lemma EmptySearchKeepsBuffer(s: State, text: JsValue)
    requires !Truthy(text)
    ensures Search(s, text).inputVal == s.inputVal
  {
  }

  /**
   * A parent that feeds the committed value back as the prop leaves the
   * committed state alone. For an array or an object `===` fails, but the
   * sync then writes the same value again.
   */
  lemma ChangeThenSyncIsStable(props: Props, s: State, val: JsValue)
    requires props.value == val
    ensures Synced(props, Change(props, s, val).state) == Change(props, s, val).state
  {
  }

  // ---------------------------------------------------------------------------
  // Event traces

  /** What the user or the parent can do to the control. */
  datatype Event =
    | Typed(text: JsValue)   // onSearch
    | Picked(val: JsValue)   // onChange from the dropdown
    | Left                   // onBlur
    | Rendered               // getDerivedStateFromProps before a render

  function Apply(props: Props, s: State, e: Event): Step {
    match e
    case Typed(text) => Step(Search(s, text), [])
    case Picked(val) => Change(props, s, val)
    case Left => Blur(props, s)
    case Rendered => Step(Synced(props, s), [])
  }

  /** The state and callbacks after a sequence of events, with the props held fixed. */
  function Run(props: Props, s: State, events: seq<Event>): Step
    decreases |events|
  {
    if events == [] then Step(s, [])
    else
      var first := Apply(props, s, events[0]);
      var rest := Run(props, first.state, events[1..]);
      Step(rest.state, first.effects + rest.effects)
  }

  /** `x` is something the trace could commit: text typed before it started, a picked value, or non-empty typed text. */
  predicate Committable(s: State, events: seq<Event>, x: JsValue) {
    (Truthy(s.inputVal) && x == s.inputVal)
    || (exists i :: 0 <= i < |events| && events[i] == Picked(x))
    || (exists i :: 0 <= i < |events| && events[i] == Typed(x) && Truthy(x))
  }

  /** Every value the control reports was picked or typed (non-empty); it never makes one up. */
  lemma {:induction false} RunReportsOnlyInput(props: Props, s: State, events: seq<Event>)
    ensures forall e :: e in Run(props, s, events).effects ==> Committable(s, events, EffectValue(e))
    decreases |events|
  {
    if events != [] {
      var first := Apply(props, s, events[0]);
      var rest := events[1..];
      RunReportsOnlyInput(props, first.state, rest);
      forall e | e in Run(props, s, events).effects
        ensures Committable(s, events, EffectValue(e))
      {
        var x := EffectValue(e);
        if e in first.effects {
          match events[0]
          case Picked(val) => assert events[0] == Picked(x);
          case Left => assert Truthy(s.inputVal) && x == s.inputVal;
          case Typed(_) =>
          case Rendered =>
        } else {
          assert Committable(first.state, rest, x);
          if exists i :: 0 <= i < |rest| && rest[i] == Picked(x) {
            var i :| 0 <= i < |rest| && rest[i] == Picked(x);
            assert events[i + 1] == Picked(x);
          } else if exists i :: 0 <= i < |rest| && rest[i] == Typed(x) && Truthy(x) {
            var i :| 0 <= i < |rest| && rest[i] == Typed(x) && Truthy(x);
            assert events[i + 1] == Typed(x);
          } else {
            assert Truthy(first.state.inputVal) && x == first.state.inputVal;
            match events[0]
            case Typed(text) =>
              if Truthy(text) {
                assert events[0] == Typed(x);
              }
            case Picked(_) =>
            case Left =>
            case Rendered =>
          }
        }
      }
    }
  }

  // ---------------------------------------------------------------------------
  // The component

  /** The component `Index`: its state fields and the callbacks it has fired so far. */
  class Index {
    var value: JsValue
    var inputVal: JsValue
    var effects: seq<Effect>

    function Snapshot(): State
      reads this
    {
      State(value, inputVal)
    }

    /** `constructor(props)`: nothing selected and nothing typed. */
    constructor()
      ensures Snapshot() == Initial && effects == []
    {
      value := Undefined;
      inputVal := Undefined;
      effects := [];
    }

    /** React applying `getDerivedStateFromProps` before a render. */
    method SyncProps(props: Props)
      modifies this
      ensures Snapshot() == Synced(props, old(Snapshot()))
      ensures effects == old(effects)
    {
      var derived := DerivedStateFromProps(props, Snapshot());
      if derived.Some? {
        value := derived.value;
      }
    }

    /** `onChange(val)`: `setState({ value: val, inputVal: undefined })`, then its callback. */
    method OnChange(props: Props, val: JsValue)
      modifies this
      ensures Snapshot() == Change(props, old(Snapshot()), val).state
      ensures effects == old(effects) + Change(props, old(Snapshot()), val).effects
    {
      value := val;
      inputVal := Undefined;
      if props.hasFormRef {
        effects := effects + [SetFieldsValue(ToString(props.name), val)];
      }
      if props.hasOnChange {
        effects := effects + [ChangeCallback(val)];
      }
    }

    /** `onSearch(text)`. */
    method OnSearch(text: JsValue)
      modifies this
      ensures Snapshot() == Search(old(Snapshot()), text)
      ensures effects == old(effects)
    {
      if Truthy(text) {
        inputVal := text;
      }
    }

    /** `onBlur()`. */
    method OnBlur(props: Props)
      modifies this
      ensures Snapshot() == Blur(props, old(Snapshot())).state
      ensures effects == old(effects) + Blur(props, old(Snapshot())).effects
    {
      var buffered := inputVal;
      if Truthy(buffered) {
        OnChange(props, buffered);
      }
    }
  }
}
