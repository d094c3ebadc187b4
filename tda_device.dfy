/** The Text Display Adapter's command and interrupt layer
    (src/devices/tda.cpp, class TDADev).

    The device holds the mapped text-buffer and font addresses, a vsync
    interrupt latch (vsyncMsg, doVsync), the cursor and blink flags, and the
    registers a, b, d, e. Mapping commands build a 32-bit address from b and
    a and commit it only when the region fits in RAM (or, for a font, in
    ROM); the bounds tests use 32-bit unsigned arithmetic, which wraps.

    Two behaviours of the code are kept as they are and stated as lemmas
    below: the bounds tests can be passed by wrap-around
    (MapBufferWrapAround, MapFontWrapAround, MapFontBelowRomBase), and restoring a snapshot
    writes the font_ptr property into the buffer pointer and never sets the
    font pointer, so that a non-zero font pointer does not survive a round
    trip onto a reset device (RestoreEncodeIff). */
module TdaDevice {
  import opened Common

  const CmdMapBuffer: Word := 0x0000
  const CmdMapFont: Word := 0x0001
  const CmdSetInt: Word := 0x0002

  /** Bytes of the 40x30 text buffer of 16-bit cells. */
  const TxtBufferSize: U32 := 40 * 30 * 2
  /** Bytes of a font of 256 glyphs of 8 bytes. */
  const FontBufferSize: U32 := 256 * 8
  /** Where ROM starts in the address space a font may be mapped from. */
  const RomBase: U32 := 0x10_0000

  /** The whole state of a TDA, as a value. */
  datatype TdaState = TdaState(a: Word, b: Word, d: Word, e: Word,
                               bufferPtr: U32, fontPtr: U32,
                               vsyncMsg: Word, doVsync: bool,
                               cursor: bool, blink: bool)

  const ResetState: TdaState := TdaState(0, 0, 0, 0, 0, 0, 0, false, false, false)

  /** The candidate address (b << 16) | a of the mapping commands: b is
      the high half and a the low half. */
  function Address(st: TdaState): (tmp: U32)
    ensures tmp / 0x1_0000 == st.b as int && tmp % 0x1_0000 == st.a as int
  {
    st.b as int * 0x1_0000 + st.a as int
  }

  /** The effect of SendCMD(cmd) given the sizes RamSize() and RomSize()
      report; sums and differences are 32-bit unsigned. */
  function Command(st: TdaState, cmd: Word, ramSize: U32, romSize: U32): TdaState
  {
    var tmp := Address(st);
    if cmd == CmdMapBuffer then
      if Wrap(tmp + TxtBufferSize) < ramSize then st.(bufferPtr := tmp) else st
    else if cmd == CmdMapFont then
      if Wrap(tmp + FontBufferSize) <= ramSize then st.(fontPtr := tmp)
      else if Wrap(Wrap(tmp - RomBase) + FontBufferSize) <= romSize then st.(fontPtr := tmp)
      else st
    else if cmd == CmdSetInt then
      st.(vsyncMsg := st.a)
    else
      st
  }

  /** MAP_BUFFER: when the text buffer's end does not pass 2^32, the
      address is committed exactly when the whole buffer lies strictly
      below the RAM size; otherwise the mapping is kept. Nothing else
      changes. */
  lemma MapBuffer(st: TdaState, ramSize: U32, romSize: U32)
    requires Address(st) + TxtBufferSize < Modulus
    ensures Command(st, CmdMapBuffer, ramSize, romSize) ==
            if Address(st) + TxtBufferSize < ramSize then st.(bufferPtr := Address(st)) else st
  {
  }

  /** The wrap-around of MAP_BUFFER's bounds test: with b = 0xFFFF and
      a = 0xF6A0 the buffer would end at 2^32, but the 32-bit sum wraps to
      0 and the address is committed into any non-empty RAM. */
  lemma MapBufferWrapAround(st: TdaState, ramSize: U32, romSize: U32)
    requires st.b == 0xFFFF && st.a == 0xF6A0 && ramSize > 0
    ensures Command(st, CmdMapBuffer, ramSize, romSize).bufferPtr == 0xFFFF_F6A0
    ensures 0xFFFF_F6A0 + TxtBufferSize > ramSize
  {
  }

  /** MAP_FONT: when the font's end does not pass 2^32, a font that lies
      inside RAM is committed; otherwise, for an address at or above the
      ROM base, it is committed exactly when the whole font lies inside
      ROM. The raw address is stored in both cases; nothing else changes. */
  lemma MapFont(st: TdaState, ramSize: U32, romSize: U32)
    requires Address(st) + FontBufferSize < Modulus
    ensures var s := Command(st, CmdMapFont, ramSize, romSize);
      var tmp := Address(st);
      (tmp + FontBufferSize <= ramSize ==> s == st.(fontPtr := tmp)) &&
      (tmp + FontBufferSize > ramSize && tmp >= RomBase ==>
         s == if tmp - RomBase + FontBufferSize <= romSize then st.(fontPtr := tmp) else st)
  {
  }

  /** The wrap-around of MAP_FONT's RAM test: with b = 0xFFFF and
      a = 0xF800 the font would end at 2^32, but the 32-bit sum wraps to 0
      and the address is committed even with no RAM and no ROM at all. */
  lemma MapFontWrapAround(st: TdaState)
    requires st.b == 0xFFFF && st.a == 0xF800
    ensures Command(st, CmdMapFont, 0, 0).fontPtr == 0xFFFF_F800
    ensures Address(st) >= RomBase && Address(st) + FontBufferSize == Modulus
  {
  }

  /** The wrap-around of MAP_FONT's ROM test: the address 0x000FF800, just
      below the ROM base, in RAM too small for it, is committed as a ROM
      font whatever the ROM size, since the 32-bit difference wraps. */
  lemma MapFontBelowRomBase(st: TdaState, romSize: U32)
    requires st.b == 0x000F && st.a == 0xF800
    ensures Command(st, CmdMapFont, 0, romSize).fontPtr == 0x000F_F800
    ensures Address(st) < RomBase
  {
  }

  /** SET_INT copies a into the message; every other code is a no-op, and
      no command writes a register, the latch flag or the cursor flags. */
  lemma CommandFrame(st: TdaState, cmd: Word, ramSize: U32, romSize: U32)
    ensures var s := Command(st, cmd, ramSize, romSize);
      s.a == st.a && s.b == st.b && s.d == st.d && s.e == st.e &&
      s.doVsync == st.doVsync && s.cursor == st.cursor && s.blink == st.blink &&
      s.vsyncMsg == (if cmd == CmdSetInt then st.a else st.vsyncMsg) &&
      (cmd != CmdMapBuffer ==> s.bufferPtr == st.bufferPtr) &&
      (cmd != CmdMapFont ==> s.fontPtr == st.fontPtr) &&
      (cmd > CmdSetInt ==> s == st)
  {
  }

  // ---------------------------------------------------------------------
  // Snapshots

  /** What GetState emits: registers a, b, d, e, then vsync_msg, do_vsync,
      cursor and blink, and each mapped pointer only when it is not zero. */
  function Encode(st: TdaState, base: Snapshot): Snapshot
  {
    base.(a := st.a, b := st.b, d := st.d, e := st.e,
          properties := [IntProperty("vsync_msg", st.vsyncMsg as int),
                         BoolProperty("do_vsync", st.doVsync),
                         BoolProperty("cursor", st.cursor),
                         BoolProperty("blink", st.blink)]
                        + (if st.bufferPtr != 0 then [IntProperty("buffer_ptr", st.bufferPtr)] else [])
                        + (if st.fontPtr != 0 then [IntProperty("font_ptr", st.fontPtr)] else []))
  }

  /** One property applied by SetState. A font_ptr property is written into
      the buffer pointer, as the code does; unknown names are ignored. */
  function ApplyProperty(st: TdaState, p: Property): TdaState
  {
    if p.name == "vsync_msg" then st.(vsyncMsg := Low16(p.ivalue))
    else if p.name == "do_vsync" then st.(doVsync := p.bvalue)
    else if p.name == "cursor" then st.(cursor := p.bvalue)
    else if p.name == "blink" then st.(blink := p.bvalue)
    else if p.name == "buffer_ptr" then st.(bufferPtr := p.ivalue)
    else if p.name == "font_ptr" then st.(bufferPtr := p.ivalue)
    else st
  }

  function ApplyProperties(st: TdaState, ps: seq<Property>): TdaState
    decreases |ps|
  {
    if ps == [] then st
    else ApplyProperty(ApplyProperties(st, ps[..|ps| - 1]), ps[|ps| - 1])
  }

  /** The state SetState leaves when the base restore succeeded. */
  function Restore(st: TdaState, snap: Snapshot): TdaState
  {
    ApplyProperties(st.(a := snap.a, b := snap.b, d := snap.d, e := snap.e), snap.properties)
  }

  /** SetState never changes the font pointer, and a field whose property
      is absent keeps its value. */
  lemma {:induction false} ApplyPropertiesFrame(st: TdaState, ps: seq<Property>)
    ensures var s := ApplyProperties(st, ps);
      s.fontPtr == st.fontPtr &&
      s.a == st.a && s.b == st.b && s.d == st.d && s.e == st.e &&
      ((forall i :: 0 <= i < |ps| ==> ps[i].name != "vsync_msg") ==> s.vsyncMsg == st.vsyncMsg) &&
      ((forall i :: 0 <= i < |ps| ==> ps[i].name != "do_vsync") ==> s.doVsync == st.doVsync) &&
      ((forall i :: 0 <= i < |ps| ==> ps[i].name != "cursor") ==> s.cursor == st.cursor) &&
      ((forall i :: 0 <= i < |ps| ==> ps[i].name != "blink") ==> s.blink == st.blink) &&
      ((forall i :: 0 <= i < |ps| ==> ps[i].name != "buffer_ptr" && ps[i].name != "font_ptr") ==>
         s.bufferPtr == st.bufferPtr)
    decreases |ps|
  {
    if ps != [] {
      ApplyPropertiesFrame(st, ps[..|ps| - 1]);
    }
  }

  lemma ApplyPropertiesSnoc(st: TdaState, ps: seq<Property>, p: Property)
    ensures ApplyProperties(st, ps + [p]) == ApplyProperty(ApplyProperties(st, ps), p)
  {
    assert (ps + [p])[..|ps|] == ps;
  }

  /** The four properties GetState always emits restore the latch and the
      cursor and blink flags. */
  lemma RestoreFlags(start: TdaState, st: TdaState)
    ensures ApplyProperties(start, [IntProperty("vsync_msg", st.vsyncMsg as int),
                                    BoolProperty("do_vsync", st.doVsync),
                                    BoolProperty("cursor", st.cursor),
                                    BoolProperty("blink", st.blink)]) ==
            start.(vsyncMsg := st.vsyncMsg, doVsync := st.doVsync, cursor := st.cursor, blink := st.blink)
  {
    var p0, p1, p2, p3 := IntProperty("vsync_msg", st.vsyncMsg as int), BoolProperty("do_vsync", st.doVsync),
                          BoolProperty("cursor", st.cursor), BoolProperty("blink", st.blink);
    ApplyPropertiesSnoc(start, [], p0);
    assert [] + [p0] == [p0];
    ApplyPropertiesSnoc(start, [p0], p1);
    assert [p0] + [p1] == [p0, p1];
    ApplyPropertiesSnoc(start, [p0, p1], p2);
    assert [p0, p1] + [p2] == [p0, p1, p2];
    ApplyPropertiesSnoc(start, [p0, p1, p2], p3);
    assert [p0, p1, p2] + [p3] == [p0, p1, p2, p3];
  }

  /** What restoring GetState's snapshot yields: every field comes back,
      except the two pointers. A non-zero font pointer lands in the buffer
      pointer, and the font pointer keeps its value from before. A zero
      pointer is not emitted and SetState clears nothing, so when both
      pointers are 0 the buffer pointer also keeps its value from before. */
  lemma RestoreEncode(before: TdaState, st: TdaState, base: Snapshot)
    ensures Restore(before, Encode(st, base)) ==
            st.(fontPtr := before.fontPtr,
                bufferPtr := if st.fontPtr != 0 then st.fontPtr
                             else if st.bufferPtr != 0 then st.bufferPtr
                             else before.bufferPtr)
  {
    var start := before.(a := st.a, b := st.b, d := st.d, e := st.e);
    var flags := [IntProperty("vsync_msg", st.vsyncMsg as int),
                  BoolProperty("do_vsync", st.doVsync),
                  BoolProperty("cursor", st.cursor),
                  BoolProperty("blink", st.blink)];
    var bp := if st.bufferPtr != 0 then [IntProperty("buffer_ptr", st.bufferPtr)] else [];
    var fp := if st.fontPtr != 0 then [IntProperty("font_ptr", st.fontPtr)] else [];
    assert Encode(st, base).properties == flags + bp + fp;
    RestoreFlags(start, st);
    var s4 := start.(vsyncMsg := st.vsyncMsg, doVsync := st.doVsync, cursor := st.cursor, blink := st.blink);
    var s5 := if st.bufferPtr != 0 then s4.(bufferPtr := st.bufferPtr) else s4;
    assert ApplyProperties(start, flags + bp) == s5 by {
      if st.bufferPtr != 0 {
        ApplyPropertiesSnoc(start, flags, IntProperty("buffer_ptr", st.bufferPtr));
      } else {
        assert flags + bp == flags;
      }
    }
    if st.fontPtr != 0 {
      ApplyPropertiesSnoc(start, flags + bp, IntProperty("font_ptr", st.fontPtr));
    } else {
      assert flags + bp + fp == flags + bp;
    }
  }

  /** Round trip on the same device holds exactly when the font pointer is
      zero or already equals the buffer pointer; onto a freshly reset device
      it holds exactly when the font pointer is zero. */
  lemma RestoreEncodeIff(st: TdaState, base: Snapshot)
    ensures Restore(st, Encode(st, base)) == st <==> st.fontPtr == 0 || st.fontPtr == st.bufferPtr
    ensures Restore(ResetState, Encode(st, base)) == st <==> st.fontPtr == 0
  {
    RestoreEncode(st, st, base);
    RestoreEncode(ResetState, st, base);
  }

  // ---------------------------------------------------------------------
  // The device

  class TDADev {
    var a: Word
    var b: Word
    var d: Word
    var e: Word
    var bufferPtr: U32
    var fontPtr: U32
    var vsyncMsg: Word
    var doVsync: bool
    var cursor: bool
    var blink: bool

    function State(): TdaState
      reads this
    {
      TdaState(a, b, d, e, bufferPtr, fontPtr, vsyncMsg, doVsync, cursor, blink)
    }

    constructor ()
      ensures State() == ResetState
    {
      a, b, d, e := 0, 0, 0, 0;
      bufferPtr, fontPtr := 0, 0;
      vsyncMsg, doVsync := 0, false;
      cursor, blink := false, false;
    }

    /** Zeroes the pointers, registers, message and flags, so that no
      interrupt is raised. */
    method Reset()
      modifies this
      ensures State() == ResetState
      ensures forall msg: Word :: DoesInterrupt(msg) == Poll(false, msg)
    {
      bufferPtr := 0;
      fontPtr := 0;
      vsyncMsg := 0;
      a := 0;
      b := 0;
      d := 0;
      e := 0;
      doVsync := false;
      cursor := false;
      blink := false;
    }

    method SendCMD(cmd: Word, ramSize: U32, romSize: U32)
      modifies this
      ensures State() == Command(old(State()), cmd, ramSize, romSize)
    {
      var tmp: U32;
      if cmd == CmdMapBuffer {
        tmp := b as int * 0x1_0000 + a as int;
        if Wrap(tmp + TxtBufferSize) < ramSize {
          bufferPtr := tmp;
        }
      } else if cmd == CmdMapFont {
        tmp := b as int * 0x1_0000 + a as int;
        if Wrap(tmp + FontBufferSize) <= ramSize {
          fontPtr := tmp;
        } else if Wrap(Wrap(tmp - RomBase) + FontBufferSize) <= romSize {
          fontPtr := tmp;
        }
      } else if cmd == CmdSetInt {
        vsyncMsg := a;
      }
    }

    /** A vsync interrupt is raised, with its message, exactly when one is
      pending and the message is not zero; otherwise the by-reference
      message is left as it was. */
    function DoesInterrupt(msg: Word): (r: Poll)
      reads this
      ensures r.fires <==> doVsync && vsyncMsg != 0
      ensures r.msg == if r.fires then vsyncMsg else msg
      ensures r.fires ==> r.msg != 0
    {
      if doVsync && vsyncMsg != 0 then Poll(true, vsyncMsg) else Poll(false, msg)
    }

    /** Acknowledges the interrupt: only the pending flag is cleared. */
    method IACK()
      modifies this
      ensures State() == old(State()).(doVsync := false)
      ensures forall msg: Word :: !DoesInterrupt(msg).fires
    {
      doVsync := false;
    }

    method GetState(base: Snapshot) returns (out: Snapshot)
      ensures out == Encode(State(), base)
    {
      var props := [IntProperty("vsync_msg", vsyncMsg as int),
                    BoolProperty("do_vsync", doVsync),
                    BoolProperty("cursor", cursor),
                    BoolProperty("blink", blink)];
      if bufferPtr != 0 {
        props := props + [IntProperty("buffer_ptr", bufferPtr)];
      }
      if fontPtr != 0 {
        props := props + [IntProperty("font_ptr", fontPtr)];
      }
      out := base.(a := a, b := b, d := d, e := e, properties := props);
    }

    /** Fails, changing nothing, when the base restore failed; otherwise
      copies the registers and applies the properties in order. */
    method SetState(snap: Snapshot, baseRestored: bool) returns (ok: bool)
      modifies this
      ensures ok == baseRestored
      ensures State() == if ok then Restore(old(State()), snap) else old(State())
    {
      if !baseRestored {
        return false;
      }
      a := snap.a;
      b := snap.b;
      d := snap.d;
      e := snap.e;
      ghost var start := State();
      var i := 0;
      while i < |snap.properties|
        invariant 0 <= i <= |snap.properties|
        invariant State() == ApplyProperties(start, snap.properties[..i])
      {
        var prop := snap.properties[i];
        assert snap.properties[..i + 1][..i] == snap.properties[..i];
        if prop.name == "vsync_msg" {
          vsyncMsg := Low16(prop.ivalue);
        } else if prop.name == "do_vsync" {
          doVsync := prop.bvalue;
        } else if prop.name == "cursor" {
          cursor := prop.bvalue;
        } else if prop.name == "blink" {
          blink := prop.bvalue;
        } else if prop.name == "buffer_ptr" {
          bufferPtr := prop.ivalue;
        } else if prop.name == "font_ptr" {
          bufferPtr := prop.ivalue;
        }
        i := i + 1;
      }
      assert snap.properties[..i] == snap.properties;
      return true;
    }

    /** The adapter does not raise its interrupt on its own clock. */
    function IsSyncDev(): (r: bool)
      ensures !r
    {
      false
    }
  }
}
