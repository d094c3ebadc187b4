/** The generic keyboard device (src/devices/gkeyb.cpp).

    The device keeps a bounded double-ended buffer of packed key events,
    three registers a (keycode), b (scancode) and c (status), and an
    interrupt latch (intMsg, doInt). Commands push the registers as one
    packed event onto the front of the buffer and pull the front event
    back into the registers; as both work on the same end, the buffer is a
    stack as far as commands are concerned.

    The pure part (KeyboardState and the functions over it) is the
    specification; the class GKeyboardDev updates its fields in place and
    each of its methods is proved against that specification. */
module Keyboard {
  import opened Common

  const CmdClearBuffer: Word := 0x0000
  const CmdPullKey: Word := 0x0001
  const CmdPushKey: Word := 0x0002
  const CmdSetInt: Word := 0x0003

  /** The three command registers: a = keycode, b = scancode, c = status. */
  datatype Regs = Regs(a: Word, b: Word, c: Word)

  /** The whole state of a keyboard, as a value. */
  datatype KeyboardState = KeyboardState(a: Word, b: Word, c: Word, keybuffer: seq<U32>, intMsg: Word, doInt: bool)

  function Registers(st: KeyboardState): Regs
  {
    Regs(st.a, st.b, st.c)
  }

  /** The CPU writing the three registers before it sends a command. */
  function WithRegisters(st: KeyboardState, r: Regs): KeyboardState
  {
    st.(a := r.a, b := r.b, c := r.c)
  }

  /** The registers as a push keeps them: keycode cut to 8 bits, status to 3. */
  function Masked(r: Regs): Regs
  {
    Regs(r.a % 0x100, r.b, r.c % 8)
  }

  /** A key event: status in bits 24-26, keycode in bits 16-23, scancode in
      bits 0-15. Unpacking gives back the masked registers. */
  function Pack(r: Regs): (e: U32)
    ensures e < 0x0800_0000
    ensures Unpack(e) == Masked(r)
  {
    (r.c % 8) * 0x100_0000 + (r.a % 0x100) * 0x1_0000 + r.b
  }

  /** How PULL_KEY spreads an event over the registers:
      c = e >> 24, b = e & 0xFFFF, a = (e >> 16) & 0xFF. */
  function Unpack(e: U32): (r: Regs)
    ensures r.a < 0x100 && r.c < 0x100
  {
    Regs((e / 0x1_0000) % 0x100, e % 0x1_0000, e / 0x100_0000)
  }

  /** Packing the unpacked registers gives the event back exactly when the
      event has nothing above bit 26, i.e. when a push could have made it. */
  lemma PackUnpack(e: U32)
    ensures Pack(Unpack(e)) == e <==> e < 0x0800_0000
  {
  }

  /** The effect of SendCMD(cmd) on a keyboard whose buffer holds at most
      `capacity` (BSIZE) events when it is pushed to. */
  function Command(st: KeyboardState, cmd: Word, capacity: nat): KeyboardState
  {
    if cmd == CmdClearBuffer then
      st.(keybuffer := [])
    else if cmd == CmdPullKey then
      if st.keybuffer != [] then
        var r := Unpack(st.keybuffer[0]);
        st.(keybuffer := st.keybuffer[1..], a := r.a, b := r.b, c := r.c)
      else
        st.(a := 0, b := 0, c := 0)
    else if cmd == CmdPushKey then
      if |st.keybuffer| < capacity then
        st.(keybuffer := [Pack(Registers(st))] + st.keybuffer)
      else
        st
    else if cmd == CmdSetInt then
      st.(intMsg := st.a)
    else
      st
  }

  /** PULL_KEY: the front event is removed and unpacked into the registers;
      on an empty buffer the registers become zero and the buffer stays
      empty. The latch is untouched. */
  lemma PullKey(st: KeyboardState, capacity: nat)
    ensures var s := Command(st, CmdPullKey, capacity);
      s.intMsg == st.intMsg && s.doInt == st.doInt &&
      if st.keybuffer == [] then
        s.keybuffer == [] && Registers(s) == Regs(0, 0, 0)
      else
        s.keybuffer == st.keybuffer[1..] && Registers(s) == Unpack(st.keybuffer[0])
  {
  }

  /** PUSH_KEY: with room, the packed registers go on the front; when the
      buffer is full, the event is dropped. Registers are never changed. */
  lemma PushKey(st: KeyboardState, capacity: nat)
    ensures var s := Command(st, CmdPushKey, capacity);
      Registers(s) == Registers(st) && s.intMsg == st.intMsg && s.doInt == st.doInt &&
      if |st.keybuffer| < capacity then
        s.keybuffer == [Pack(Registers(st))] + st.keybuffer
      else
        s == st
  {
  }

  /** A push immediately followed by a pull restores the buffer and leaves
      the masked registers: the newest event is the next one pulled. */
  lemma PushThenPull(st: KeyboardState, capacity: nat)
    requires |st.keybuffer| < capacity
    ensures var s := Command(Command(st, CmdPushKey, capacity), CmdPullKey, capacity);
      s.keybuffer == st.keybuffer && Registers(s) == Masked(Registers(st)) &&
      s.intMsg == st.intMsg && s.doInt == st.doInt
  {
  }

  /** A pull followed by a push puts the pulled event back, provided the
      event is one a push could have made. */
  lemma PullThenPush(st: KeyboardState, capacity: nat)
    requires st.keybuffer != [] && |st.keybuffer| <= capacity
    requires st.keybuffer[0] < 0x0800_0000
    ensures Command(Command(st, CmdPullKey, capacity), CmdPushKey, capacity).keybuffer == st.keybuffer
  {
    PackUnpack(st.keybuffer[0]);
  }

  /** No command lets the buffer outgrow its capacity, and only the
      buffer commands touch the buffer, only PULL_KEY writes registers,
      only SET_INT writes the message, and no command touches doInt. */
  lemma CommandFrame(st: KeyboardState, cmd: Word, capacity: nat)
    ensures var s := Command(st, cmd, capacity);
      (|st.keybuffer| <= capacity ==> |s.keybuffer| <= capacity) &&
      (cmd != CmdPullKey ==> Registers(s) == Registers(st)) &&
      s.intMsg == (if cmd == CmdSetInt then st.a else st.intMsg) &&
      s.doInt == st.doInt &&
      (cmd == CmdClearBuffer ==> s == st.(keybuffer := [])) &&
      (cmd > CmdSetInt ==> s == st)
  {
  }

  // ---------------------------------------------------------------------
  // Sequences of commands: the buffer is a stack

  function Reverse<T>(s: seq<T>): (r: seq<T>)
  {
    seq(|s|, i requires 0 <= i < |s| => s[|s| - 1 - i])
  }

  function PackAll(rs: seq<Regs>): seq<U32>
  {
    seq(|rs|, i requires 0 <= i < |rs| => Pack(rs[i]))
  }

  /** The CPU pushing one event per entry of `events`, in order, each time
      writing the registers and then sending PUSH_KEY. */
  function PushAll(st: KeyboardState, events: seq<Regs>, capacity: nat): KeyboardState
    decreases |events|
  {
    if events == [] then st
    else PushAll(Command(WithRegisters(st, events[0]), CmdPushKey, capacity), events[1..], capacity)
  }

  /** The CPU sending PULL_KEY n times, reading the registers after each:
      the final state and the register triples read, in order. */
  function PullAll(st: KeyboardState, n: nat, capacity: nat): (KeyboardState, seq<Regs>)
    decreases n
  {
    if n == 0 then (st, [])
    else
      var s1 := Command(st, CmdPullKey, capacity);
      var rest := PullAll(s1, n - 1, capacity);
      (rest.0, [Registers(s1)] + rest.1)
  }

  /** Pushing events that fit leaves them on the front in reverse order. */
  lemma {:induction false} PushAllPrepends(st: KeyboardState, events: seq<Regs>, capacity: nat)
    requires |st.keybuffer| + |events| <= capacity
    ensures var s := PushAll(st, events, capacity);
      s.keybuffer == Reverse(PackAll(events)) + st.keybuffer &&
      s.intMsg == st.intMsg && s.doInt == st.doInt
    decreases |events|
  {
    if events != [] {
      var s1 := Command(WithRegisters(st, events[0]), CmdPushKey, capacity);
      assert s1.keybuffer == [Pack(events[0])] + st.keybuffer;
      PushAllPrepends(s1, events[1..], capacity);
      var tail := Reverse(PackAll(events[1..]));
      assert Reverse(PackAll(events)) == tail + [Pack(events[0])] by {
        assert |Reverse(PackAll(events))| == |tail| + 1;
        forall i | 0 <= i < |events|
          ensures Reverse(PackAll(events))[i] == (tail + [Pack(events[0])])[i]
        {
          if i < |tail| {
            assert events[1..][|events| - 2 - i] == events[|events| - 1 - i];
          }
        }
      }
    }
  }

  /** Pulling n times, with at least n events stored, reads the first n
      events in front-to-back order and leaves the rest. */
  lemma {:induction false} PullAllTakes(st: KeyboardState, n: nat, capacity: nat)
    requires n <= |st.keybuffer|
    ensures var (s, read) := PullAll(st, n, capacity);
      s.keybuffer == st.keybuffer[n..] &&
      |read| == n && forall i :: 0 <= i < n ==> read[i] == Unpack(st.keybuffer[i])
    decreases n
  {
    if n > 0 {
      var s1 := Command(st, CmdPullKey, capacity);
      PullAllTakes(s1, n - 1, capacity);
      assert s1.keybuffer[n - 1..] == st.keybuffer[n..];
    }
  }

  /** Last in, first out: pushing events that fit and then pulling as many
      times reads them back newest first (masked as a push masks them) and
      restores the buffer. */
  lemma LastInFirstOut(st: KeyboardState, events: seq<Regs>, capacity: nat)
    requires |st.keybuffer| + |events| <= capacity
    ensures var (s, read) := PullAll(PushAll(st, events, capacity), |events|, capacity);
      s.keybuffer == st.keybuffer &&
      read == Reverse(seq(|events|, i requires 0 <= i < |events| => Masked(events[i])))
  {
    var pushed := PushAll(st, events, capacity);
    PushAllPrepends(st, events, capacity);
    PullAllTakes(pushed, |events|, capacity);
    assert pushed.keybuffer[|events|..] == st.keybuffer;
  }

  // ---------------------------------------------------------------------
  // Snapshots

  /** What GetState emits for a state, on top of what the base device put
      into the snapshot: registers a, b, c, then the properties int_msg and
      do_int, and the buffer as a RAW blob only when it is not empty. */
  function Encode(st: KeyboardState, base: Snapshot): Snapshot
  {
    base.(a := st.a, b := st.b, c := st.c,
          properties := [IntProperty("int_msg", st.intMsg as int), BoolProperty("do_int", st.doInt)]
                        + (if st.keybuffer == [] then [] else [RawProperty("keybuffer", st.keybuffer)]))
  }

  /** One property applied by SetState; unknown names are ignored and a
      keybuffer blob is appended at the back. */
  function ApplyProperty(st: KeyboardState, p: Property): KeyboardState
  {
    if p.name == "int_msg" then st.(intMsg := Low16(p.ivalue))
    else if p.name == "do_int" then st.(doInt := p.bvalue)
    else if p.name == "keybuffer" then st.(keybuffer := st.keybuffer + p.rvalue)
    else st
  }

  function ApplyProperties(st: KeyboardState, ps: seq<Property>): KeyboardState
    decreases |ps|
  {
    if ps == [] then st
    else ApplyProperty(ApplyProperties(st, ps[..|ps| - 1]), ps[|ps| - 1])
  }

  /** The state SetState leaves when the base restore succeeded: registers
      copied, buffer cleared, then every property applied in order. */
  function Restore(st: KeyboardState, snap: Snapshot): KeyboardState
  {
    ApplyProperties(st.(a := snap.a, b := snap.b, c := snap.c, keybuffer := []), snap.properties)
  }

  /** Round trip: restoring what GetState emitted gives back the whole
      state, whatever the device held before, including an empty buffer
      and a buffer longer than BSIZE. */
  lemma RestoreEncode(before: KeyboardState, st: KeyboardState, base: Snapshot)
    ensures Restore(before, Encode(st, base)) == st
  {
    var snap := Encode(st, base);
    var start := before.(a := st.a, b := st.b, c := st.c, keybuffer := []);
    var ps := snap.properties;
    assert ps[..1][..0] == [];
    assert ApplyProperties(start, ps[..1]) == ApplyProperty(start, ps[0]);
    assert ps[..2][..1] == ps[..1];
    assert ApplyProperties(start, ps[..2]) == ApplyProperty(ApplyProperty(start, ps[0]), ps[1]);
    assert ApplyProperties(start, ps[..2]) == start.(intMsg := st.intMsg, doInt := st.doInt);
    if st.keybuffer == [] {
      assert ps == ps[..2];
    } else {
      assert ps[..|ps| - 1] == ps[..2];
    }
  }

  /** A field whose property is absent keeps its value through SetState. */
  lemma {:induction false} ApplyPropertiesKeepsMissing(st: KeyboardState, ps: seq<Property>)
    ensures var s := ApplyProperties(st, ps);
      Registers(s) == Registers(st) &&
      ((forall i :: 0 <= i < |ps| ==> ps[i].name != "int_msg") ==> s.intMsg == st.intMsg) &&
      ((forall i :: 0 <= i < |ps| ==> ps[i].name != "do_int") ==> s.doInt == st.doInt) &&
      ((forall i :: 0 <= i < |ps| ==> ps[i].name != "keybuffer") ==> s.keybuffer == st.keybuffer)
    decreases |ps|
  {
    if ps != [] {
      ApplyPropertiesKeepsMissing(st, ps[..|ps| - 1]);
    }
  }

  /** The words of every keybuffer blob of a property list, in order. */
  function Blobs(ps: seq<Property>): seq<U32>
    decreases |ps|
  {
    if ps == [] then []
    else Blobs(ps[..|ps| - 1]) + (if ps[|ps| - 1].name == "keybuffer" then ps[|ps| - 1].rvalue else [])
  }

  /** Applying properties appends the words of every keybuffer blob, in
      order, to the buffer. */
  lemma {:induction false} ApplyPropertiesBuffer(st: KeyboardState, ps: seq<Property>)
    ensures ApplyProperties(st, ps).keybuffer == st.keybuffer + Blobs(ps)
    decreases |ps|
  {
    if ps != [] {
      ApplyPropertiesBuffer(st, ps[..|ps| - 1]);
    }
  }

  /** The buffer SetState leaves is exactly the words of the snapshot's
      keybuffer blobs, in order: what the device held before is cleared,
      and nothing caps the result at BSIZE. */
  lemma RestoreBuffer(st: KeyboardState, snap: Snapshot)
    ensures Restore(st, snap).keybuffer == Blobs(snap.properties)
  {
    ApplyPropertiesBuffer(st.(a := snap.a, b := snap.b, c := snap.c, keybuffer := []), snap.properties);
  }

  // ---------------------------------------------------------------------
  // The device

  class GKeyboardDev {
    /** BSIZE, the buffer capacity a push respects. */
    const capacity: nat

    var a: Word
    var b: Word
    var c: Word
    var keybuffer: seq<U32>
    var intMsg: Word
    var doInt: bool

    function State(): KeyboardState
      reads this
    {
      KeyboardState(a, b, c, keybuffer, intMsg, doInt)
    }

    constructor (bsize: nat)
      ensures capacity == bsize && State() == KeyboardState(0, 0, 0, [], 0, false)
    {
      capacity := bsize;
      a, b, c := 0, 0, 0;
      keybuffer := [];
      intMsg, doInt := 0, false;
    }

    /** Zeroes the registers and the message, empties the buffer and
      clears the pending flag, so that no interrupt is raised. */
    method Reset()
      modifies this
      ensures State() == KeyboardState(0, 0, 0, [], 0, false)
      ensures forall msg: Word :: DoesInterrupt(msg) == Poll(false, msg)
    {
      a := 0;
      b := 0;
      c := 0;
      keybuffer := [];
      intMsg := 0;
      doInt := false;
    }

    /** An interrupt is raised, with the message, exactly when one is
      pending and the message is not zero; otherwise the by-reference
      message is left as it was. A zero message is never delivered. */
    function DoesInterrupt(msg: Word): (r: Poll)
      reads this
      ensures r.fires <==> doInt && intMsg != 0
      ensures r.msg == if r.fires then intMsg else msg
      ensures r.fires ==> r.msg != 0
    {
      if doInt && intMsg != 0 then Poll(true, intMsg) else Poll(false, msg)
    }

    method SendCMD(cmd: Word)
      modifies this
      ensures State() == Command(old(State()), cmd, capacity)
    {
      if cmd == CmdClearBuffer {
        keybuffer := [];
      } else if cmd == CmdPullKey {
        if keybuffer != [] {
          var tmp := keybuffer[0];
          keybuffer := keybuffer[1..];
          c := tmp / 0x100_0000;
          b := tmp % 0x1_0000;
          a := (tmp / 0x1_0000) % 0x100;
        } else {
          a, b, c := 0, 0, 0;
        }
      } else if cmd == CmdPushKey {
        if |keybuffer| < capacity {
          var keyevent := (c % 8) * 0x100_0000 + (a % 0x100) * 0x1_0000 + b;
          keybuffer := [keyevent] + keybuffer;
        }
      } else if cmd == CmdSetInt {
        intMsg := a;
      }
    }

    /** Acknowledges the interrupt: only the pending flag is cleared. */
    method IACK()
      modifies this
      ensures State() == old(State()).(doInt := false)
      ensures forall msg: Word :: !DoesInterrupt(msg).fires
    {
      doInt := false;
    }

    method GetState(base: Snapshot) returns (out: Snapshot)
      ensures out == Encode(State(), base)
    {
      var props := [IntProperty("int_msg", intMsg as int), BoolProperty("do_int", doInt)];
      if keybuffer != [] {
        var buff: seq<U32> := [];
        var i := 0;
        while i < |keybuffer|
          invariant 0 <= i <= |keybuffer|
          invariant buff == keybuffer[..i]
        {
          buff := buff + [keybuffer[i]];
          i := i + 1;
        }
        assert buff == keybuffer;
        props := props + [RawProperty("keybuffer", buff)];
      }
      out := base.(a := a, b := b, c := c, properties := props);
    }

    /** Fails, changing nothing, when the base restore failed; otherwise
      copies the registers, clears the buffer and applies the properties
      in order. */
    method SetState(snap: Snapshot, baseRestored: bool) returns (ok: bool)
      modifies this
      ensures ok == baseRestored
      ensures State() == if ok then Restore(old(State()), snap) else old(State())
    {
      if !baseRestored {
        return false;
      }
      a := snap.a;
      b := snap.b;
      c := snap.c;
      keybuffer := [];
      ghost var start := State();
      var i := 0;
      while i < |snap.properties|
        invariant 0 <= i <= |snap.properties|
        invariant State() == ApplyProperties(start, snap.properties[..i])
      {
        var prop := snap.properties[i];
        assert snap.properties[..i + 1][..i] == snap.properties[..i];
        if prop.name == "int_msg" {
          intMsg := Low16(prop.ivalue);
        } else if prop.name == "do_int" {
          doInt := prop.bvalue;
        } else if prop.name == "keybuffer" {
          var len := |prop.rvalue|;
          var j := 0;
          ghost var before := State();
          while j < len
            invariant 0 <= j <= len
            invariant State() == before.(keybuffer := before.keybuffer + prop.rvalue[..j])
          {
            keybuffer := keybuffer + [prop.rvalue[j]];
            j := j + 1;
          }
          assert prop.rvalue[..j] == prop.rvalue;
        }
        assert State() == ApplyProperty(ApplyProperties(start, snap.properties[..i]), prop);
        i := i + 1;
      }
      assert snap.properties[..i] == snap.properties;
      return true;
    }
  }
}
