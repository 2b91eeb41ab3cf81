/** The per-frame input edge detector: raw key and mouse samples turned into Pressed / Released /
    Held states (the two loops at the top of each frame of `threading`). */
module Input {

  /** `struct ButtonState`: Pressed and Released last one frame, Held lasts from press to release. */
  datatype ButtonState = ButtonState(pressed: bool, released: bool, held: bool)

  /** A default-constructed `ButtonState`: all three flags false. */
  const Idle := ButtonState(false, false, false)

  /** Number of keyboard slots (`_key_new_state[256]`, `_keyboard_state[256]`). */
  const KeySlots := 256

  /** Number of mouse slots (`_mouse_new_state[5]`, `_mouse_state[5]`). */
  const MouseSlots := 5

  /** One slot of the update: from the previous raw sample, the current raw sample and the state,
      to the sample kept as the new previous one and the new state. */
  function StepSlot(prev: bool, now: bool, st: ButtonState): (r: (bool, ButtonState))
    ensures r.0 == now
    ensures !(r.1.pressed && r.1.released)
    ensures r.1.pressed ==> !prev && now && !st.held
    ensures r.1.released <==> prev && !now
    ensures r.1.held == if prev == now then st.held else now
  {
    var cleared := st.(pressed := false, released := false);
    if now != prev then
      if now then (now, cleared.(pressed := !st.held, held := true))
      else (now, cleared.(released := true, held := false))
    else (now, cleared)
  }

  /** The slot invariant: Held agrees with the previous raw sample. */
  predicate Synced(prev: bool, st: ButtonState)
  {
    st.held == prev
  }

  /** From a synced slot, one update gives exactly the edge semantics: Held is the new sample,
      Pressed iff the sample rose, Released iff it fell; and the slot is synced again. */
  lemma SyncedStep(prev: bool, now: bool, st: ButtonState)
    requires Synced(prev, st)
    ensures var (prev', st') := StepSlot(prev, now, st);
      && Synced(prev', st')
      && st'.held == now
      && (st'.pressed <==> !prev && now)
      && (st'.released <==> prev && !now)
  {
  }

  /** A slot array: the previous raw samples (`_key_old_state`) and the states (`_keyboard_state`). */
  datatype Bank = Bank(prev: seq<bool>, states: seq<ButtonState>)

  /** Both arrays of a bank have `n` slots. */
  predicate Sized(b: Bank, n: nat)
  {
    |b.prev| == n && |b.states| == n
  }

  /** Every slot of the bank is synced. */
  predicate BankSynced(b: Bank)
  {
    |b.prev| == |b.states| && forall i :: 0 <= i < |b.prev| ==> Synced(b.prev[i], b.states[i])
  }

  /** The initial bank: every previous sample false, every state `Idle`. */
  function Fresh(n: nat): (b: Bank)
    ensures Sized(b, n) && BankSynced(b)
    ensures forall i :: 0 <= i < n ==> !b.prev[i] && b.states[i] == Idle
  {
    Bank(seq(n, _ => false), seq(n, _ => Idle))
  }

  /** The `for (int i = 0; i < n; i++)` loop over one bank, given the current raw samples
      (`_key_new_state`, written by the window thread). */
  method UpdateBank(b: Bank, now: seq<bool>) returns (b': Bank)
    requires |b.prev| == |now| && |b.states| == |now|
    ensures Sized(b', |now|)
    ensures b'.prev == now
    ensures forall i :: 0 <= i < |now| ==> b'.states[i] == StepSlot(b.prev[i], now[i], b.states[i]).1
  {
    var prev, states := b.prev, b.states;
    var i := 0;
    while i < |now|
      invariant 0 <= i <= |now|
      invariant |prev| == |now| && |states| == |now|
      invariant forall k :: 0 <= k < i ==> prev[k] == now[k]
      invariant forall k :: i <= k < |now| ==> prev[k] == b.prev[k] && states[k] == b.states[k]
      invariant forall k :: 0 <= k < i ==> states[k] == StepSlot(b.prev[k], now[k], b.states[k]).1
    {
      var r := StepSlot(prev[i], now[i], states[i]);
      states := states[i := r.1];
      prev := prev[i := r.0];
      i := i + 1;
    }
    assert prev == now;
    b' := Bank(prev, states);
  }

  /** The bank update as a function. Each slot is stepped on its own: Released marks exactly a fall
      and is never set together with Pressed. On a synced bank each slot reports exactly its edge
      (Held is the new sample, Pressed iff it rose, Released iff it fell), and the bank stays synced. */
  function StepBank(b: Bank, now: seq<bool>): (b': Bank)
    requires |b.prev| == |now| && |b.states| == |now|
    ensures Sized(b', |now|) && b'.prev == now
    ensures forall i :: 0 <= i < |now| ==>
      && (b'.states[i].released <==> b.prev[i] && !now[i])
      && !(b'.states[i].pressed && b'.states[i].released)
    ensures BankSynced(b) ==> BankSynced(b') && forall i :: 0 <= i < |now| ==>
      && b'.states[i].held == now[i]
      && (b'.states[i].pressed <==> !b.prev[i] && now[i])
      && (b'.states[i].released <==> b.prev[i] && !now[i])
  {
    var b' := Bank(now, seq(|now|, i requires 0 <= i < |now| => StepSlot(b.prev[i], now[i], b.states[i]).1));
    assert BankSynced(b) ==> forall i :: 0 <= i < |now| ==>
      && b'.states[i].held == now[i]
      && (b'.states[i].pressed <==> !b.prev[i] && now[i]) by {
      if BankSynced(b) {
        forall i | 0 <= i < |now|
          ensures b'.states[i].held == now[i]
          ensures b'.states[i].pressed <==> !b.prev[i] && now[i]
        {
          SyncedStep(b.prev[i], now[i], b.states[i]);
        }
      }
    }
    b'
  }

  /** Everything the frame loop keeps about input: the keyboard and mouse banks. */
  datatype Devices = Devices(keys: Bank, mouse: Bank)

  /** The start-up state: 256 key slots and 5 mouse slots, all samples false, all states idle. */
  function InitialDevices(): (d: Devices)
    ensures Sized(d.keys, KeySlots) && Sized(d.mouse, MouseSlots)
    ensures BankSynced(d.keys) && BankSynced(d.mouse)
    ensures forall i :: 0 <= i < KeySlots ==> d.keys.states[i] == Idle && !d.keys.prev[i]
    ensures forall i :: 0 <= i < MouseSlots ==> d.mouse.states[i] == Idle && !d.mouse.prev[i]
  {
    Devices(Fresh(KeySlots), Fresh(MouseSlots))
  }

  /** One frame's input update: keys first, then the mouse buttons. */
  function StepDevices(d: Devices, keysNow: seq<bool>, mouseNow: seq<bool>): (d': Devices)
    requires Sized(d.keys, |keysNow|) && Sized(d.mouse, |mouseNow|)
    ensures Sized(d'.keys, |keysNow|) && Sized(d'.mouse, |mouseNow|)
    ensures d'.keys.prev == keysNow && d'.mouse.prev == mouseNow
    ensures BankSynced(d.keys) && BankSynced(d.mouse) ==> BankSynced(d'.keys) && BankSynced(d'.mouse)
  {
    Devices(StepBank(d.keys, keysNow), StepBank(d.mouse, mouseNow))
  }

  /** One slot fed the samples press, hold, release: Pressed only in the first frame, Held in the
      first two, Released only in the third. */
  lemma PressHoldRelease()
    ensures var (p1, s1) := StepSlot(false, true, Idle);
      var (p2, s2) := StepSlot(p1, true, s1);
      var (p3, s3) := StepSlot(p2, false, s2);
      && s1 == ButtonState(true, false, true)
      && s2 == ButtonState(false, false, true)
      && s3 == ButtonState(false, true, false)
  {
  }
}
