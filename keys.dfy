/**
 * Keyboard input (`KEY_CODES`, `KEY_STATUS` and the `keydown`/`keyup`
 * handlers in js/app.js). Five key codes are mapped to actions; the status
 * map holds one flag per action, all false at start, set on keydown and
 * cleared on keyup. `preventDefault` is browser I/O and is not modelled.
 */
module Keys {

  /** The actions the game reacts to. */
  datatype Action = Space | Left | Up | Right | Down

  /** `KEY_CODES`: the key codes the game maps to actions. */
  const KeyCodes: map<int, Action> := map[32 := Space, 37 := Left, 38 := Up, 39 := Right, 40 := Down]

  /**
   * A key event. A missing or zero `keyCode` or `charCode` (any falsy value
   * in the browser) is written 0.
   */
  datatype KeyEvent = KeyEvent(keyCode: int, charCode: int)

  datatype Option<T> = None | Some(value: T)

  /** The code of each action in `KEY_CODES`; it inverts the map. */
  function CodeOf(a: Action): (c: int)
    ensures c in KeyCodes && KeyCodes[c] == a
  {
    match a
    case Space => 32
    case Left => 37
    case Up => 38
    case Right => 39
    case Down => 40
  }

  /** No two codes share an action, so `CodeOf` recovers the code from its action. */
  lemma CodesDistinct(c: int)
    requires c in KeyCodes
    ensures CodeOf(KeyCodes[c]) == c
  {
  }

  /**
   * The code a handler looks up: `keyCode` when it is truthy, otherwise
   * `charCode` (the fallback for browsers that report only `charCode`).
   */
  function EffectiveCode(e: KeyEvent): (code: int)
    ensures code == e.keyCode || code == e.charCode
    ensures code == 0 <==> e.keyCode == 0 && e.charCode == 0
    ensures e.keyCode != 0 ==> code == e.keyCode
  {
    if e.keyCode != 0 then e.keyCode else e.charCode
  }

  /** The action an event maps to, if its code is in `KEY_CODES`. */
  function ActionOf(e: KeyEvent): (r: Option<Action>)
    ensures r.Some? <==> EffectiveCode(e) in KeyCodes
    ensures r.Some? ==> CodeOf(r.value) == EffectiveCode(e)
  {
    var code := EffectiveCode(e);
    if code in KeyCodes then Some(KeyCodes[code]) else None
  }

  /**
   * The status map after a key event: a mapped event sets its action to
   * `down` (true on keydown, false on keyup) and leaves every other entry
   * as it was; an unmapped event changes nothing.
   */
  function Keyed(status: map<Action, bool>, e: KeyEvent, down: bool): (r: map<Action, bool>)
    ensures ActionOf(e).None? ==> r == status
    ensures ActionOf(e).Some? ==> ActionOf(e).value in r && r[ActionOf(e).value] == down
    ensures forall a :: a in r <==> a in status || ActionOf(e) == Some(a)
    ensures forall a :: a in status && ActionOf(e) != Some(a) ==> r[a] == status[a]
  {
    match ActionOf(e)
    case None => status
    case Some(a) => status[a := down]
  }

  /** A keyup after a keydown of the same key leaves that action released. */
  lemma ReleaseAfterPress(status: map<Action, bool>, e: KeyEvent)
    ensures Keyed(Keyed(status, e, true), e, false) == Keyed(status, e, false)
  {
  }

  /** Repeating a key event (auto-repeat of a held key) changes nothing more. */
  lemma KeyedIdempotent(status: map<Action, bool>, e: KeyEvent, down: bool)
    ensures Keyed(Keyed(status, e, down), e, down) == Keyed(status, e, down)
  {
  }

  /** Events on different actions commute. */
  lemma KeyedCommute(status: map<Action, bool>, e1: KeyEvent, d1: bool, e2: KeyEvent, d2: bool)
    requires ActionOf(e1) != ActionOf(e2) || d1 == d2
    ensures Keyed(Keyed(status, e1, d1), e2, d2) == Keyed(Keyed(status, e2, d2), e1, d1)
  {
  }

  /** Whether an action's flag is set; a missing flag reads as false. */
  predicate Held(status: map<Action, bool>, a: Action)
  {
    a in status && status[a]
  }

  /** `KEY_STATUS` together with its two handlers. */
  class KeyStatus {
    var status: map<Action, bool>

    /** Every action has a flag. */
    ghost predicate Valid()
      reads this
    {
      forall a: Action :: a in status
    }

    /** The loop over `KEY_CODES` that sets every action's flag to false. */
    constructor ()
      ensures Valid()
      ensures forall a :: !Held(status, a)
    {
      var flags: map<Action, bool> := map[];
      var codes := KeyCodes.Keys;
      while codes != {}
        invariant codes <= KeyCodes.Keys
        invariant forall c :: c in KeyCodes && c !in codes ==> KeyCodes[c] in flags
        invariant forall a :: a in flags ==> !flags[a]
        decreases codes
      {
        var code :| code in codes;
        flags := flags[KeyCodes[code] := false];
        codes := codes - {code};
      }
      forall a: Action
        ensures a in flags
      {
        assert KeyCodes[CodeOf(a)] == a;
      }
      status := flags;
    }

    /** `document.onkeydown`. */
    method OnKeyDown(e: KeyEvent)
      modifies this
      ensures status == Keyed(old(status), e, true)
      ensures old(Valid()) ==> Valid()
    {
      var keyCode := if e.keyCode != 0 then e.keyCode else e.charCode;
      if keyCode in KeyCodes {
        status := status[KeyCodes[keyCode] := true];
      }
    }

    /** `document.onkeyup`. */
    method OnKeyUp(e: KeyEvent)
      modifies this
      ensures status == Keyed(old(status), e, false)
      ensures old(Valid()) ==> Valid()
    {
      var keyCode := if e.keyCode != 0 then e.keyCode else e.charCode;
      if keyCode in KeyCodes {
        status := status[KeyCodes[keyCode] := false];
      }
    }
  }
}
