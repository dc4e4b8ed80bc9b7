/** The command/data framing of the controller's two-wire protocol and the fixed byte
    sequences the driver sends. Every write goes to the controller at Ssd1306.ADDRESS. */
module Protocol {
  import opened Ssd1306

  datatype Option<T> = None | Some(value: T)

  /** One two-byte transport write: a control byte, then the byte it frames. */
  datatype Write = Write(control: bv8, payload: bv8)

  const CONTROL_CMD: bv8 := 0x00
  const CONTROL_DATA: bv8 := 0x40

  /** The type argument of writeI2C: 'cmd', 'data', or a string other than those two, which
      Other stands for (its name is never 'cmd' or 'data'). */
  datatype WriteType = Cmd | Data | Other(name: string)

  predicate KnownKind(kind: WriteType) { kind.Cmd? || kind.Data? }

  /** writeI2C(type, val): 'data' is framed with 0x40, 'cmd' with 0x00, and any other type
      sends nothing. */
  function Frame(kind: WriteType, val: bv8): (ws: seq<Write>)
    ensures |ws| <= 1
    ensures ws == [] <==> !KnownKind(kind)
  {
    if kind.Data? then [Write(CONTROL_DATA, val)]
    else if kind.Cmd? then [Write(CONTROL_CMD, val)]
    else []
  }

  /** How the controller reads a write: its control byte tells a command from display data. */
  function Parse(w: Write): Option<(WriteType, bv8)> {
    if w.control == CONTROL_CMD then Some((Cmd, w.payload))
    else if w.control == CONTROL_DATA then Some((Data, w.payload))
    else None
  }

  /** A framed write is read back as the kind and byte it was framed from ... */
  lemma FrameThenParse(kind: WriteType, val: bv8)
    requires KnownKind(kind)
    ensures Parse(Frame(kind, val)[0]) == Some((kind, val))
  {
  }

  /** ... and every write the controller understands is the framing of what it reads. */
  lemma ParseThenFrame(w: Write)
    requires Parse(w).Some?
    ensures Frame(Parse(w).value.0, Parse(w).value.1) == [w]
  {
  }

  /** The writes of a loop calling writeI2C(kind, b) for each byte b in turn. */
  function Emit(kind: WriteType, bs: seq<bv8>): (ws: seq<Write>)
    ensures KnownKind(kind) ==>
              |ws| == |bs| && forall i :: 0 <= i < |bs| ==> Parse(ws[i]) == Some((kind, bs[i]))
    ensures !KnownKind(kind) ==> ws == []
    decreases |bs|
  {
    if bs == [] then [] else Emit(kind, bs[..|bs| - 1]) + Frame(kind, bs[|bs| - 1])
  }

  /** The bytes a sequence of writes carries with a given control byte, in order. */
  function Payloads(ws: seq<Write>, control: bv8): (bs: seq<bv8>)
    ensures |bs| <= |ws|
    decreases |ws|
  {
    if ws == [] then []
    else (if ws[0].control == control then [ws[0].payload] else []) + Payloads(ws[1..], control)
  }

  lemma {:induction false} PayloadsAppend(a: seq<Write>, b: seq<Write>, control: bv8)
    ensures Payloads(a + b, control) == Payloads(a, control) + Payloads(b, control)
    decreases |a|
  {
    if a == [] {
      assert a + b == b;
    } else {
      assert (a + b)[0] == a[0] && (a + b)[1..] == a[1..] + b;
      PayloadsAppend(a[1..], b, control);
    }
  }

  function ControlOf(kind: WriteType): bv8
    requires KnownKind(kind)
  {
    if kind.Cmd? then CONTROL_CMD else CONTROL_DATA
  }

  /** Reading back the writes of a loop of one kind gives its bytes, and none of the other kind. */
  lemma {:induction false} EmitPayloads(kind: WriteType, bs: seq<bv8>)
    requires KnownKind(kind)
    ensures Payloads(Emit(kind, bs), ControlOf(kind)) == bs
    ensures Payloads(Emit(kind, bs), if kind.Cmd? then CONTROL_DATA else CONTROL_CMD) == []
    decreases |bs|
  {
    if bs != [] {
      var init := bs[..|bs| - 1];
      EmitPayloads(kind, init);
      PayloadsAppend(Emit(kind, init), Frame(kind, bs[|bs| - 1]), CONTROL_CMD);
      PayloadsAppend(Emit(kind, init), Frame(kind, bs[|bs| - 1]), CONTROL_DATA);
      assert init + [bs[|bs| - 1]] == bs;
    }
  }

  // ---------------------------------------------------------------------------------------
  // The fixed sequences

  /** init(): display off; clock divider 0x80; multiplex 0x1F (32 rows); display offset 0;
      start line; charge pump 0x14; memory mode 0x00; segment remap; COM scan; COM pins 0x02;
      contrast 0x8F; pre-charge 0xF1; VCOMH 0x40; resume RAM display; normal polarity;
      display on. Every setting is made while the display is off. */
  function InitSequence(): (s: seq<bv8>)
    ensures |s| == 25 && s[0] == DISPLAY_OFF && s[24] == DISPLAY_ON
    ensures forall i :: 0 < i < 24 ==> s[i] != DISPLAY_OFF && s[i] != DISPLAY_ON
  {
    [ DISPLAY_OFF,
      SET_DISPLAY_CLOCK_DIV, 0x80,
      SET_MULTIPLEX, 0x1F,
      SET_DISPLAY_OFFSET, 0x00,
      SET_START_LINE,
      CHARGE_PUMP, 0x14,
      MEMORY_MODE, 0x00,
      SEG_REMAP,
      COM_SCAN_INC,
      SET_COM_PINS, 0x02,
      SET_CONTRAST, 0x8F,
      SET_PRECHARGE, 0xF1,
      SET_VCOM_DETECT, 0x40,
      DISPLAY_ALL_ON_RESUME,
      NORMAL_DISPLAY,
      DISPLAY_ON ]
  }

  /** The addressing window sent before each frame: columns 0..127 and pages 0..3, which is
      exactly the panel, so the window holds as many bytes as the framebuffer. */
  function DisplaySequence(): (s: seq<bv8>)
    ensures |s| == 6 && s[0] == COLUMN_ADDR && s[3] == PAGE_ADDR
    ensures s[1] == 0 && s[2] as int - s[1] as int + 1 == WIDTH
    ensures s[4] == 0 && s[5] as int - s[4] as int + 1 == PAGES
    ensures (s[2] as int - s[1] as int + 1) * (s[5] as int - s[4] as int + 1) == BUFFER_SIZE
  {
    [COLUMN_ADDR, 0, (WIDTH - 1) as bv8, PAGE_ADDR, 0, 3]
  }

  /** dimDisplay's contrast value: 0 when dimmed, 0xCF otherwise. */
  function ContrastLevel(dim: bool): (v: bv8)
    ensures v == 0x00 <==> dim
    ensures v == 0x00 || v == 0xCF
  {
    if dim then 0x00 else 0xCF
  }

  function ContrastSequence(dim: bool): seq<bv8> {
    [SET_CONTRAST, ContrastLevel(dim)]
  }

  /** invertDisplay's single command: inverted polarity when asked, normal otherwise. */
  function InvertOpcode(invert: bool): (op: bv8)
    ensures op == INVERT_DISPLAY <==> invert
    ensures op == INVERT_DISPLAY || op == NORMAL_DISPLAY
  {
    if invert then INVERT_DISPLAY else NORMAL_DISPLAY
  }

  /** startscrollright(start, stop): the right horizontal scroll set-up between pages start and
      stop, then the command that activates it. */
  function ScrollRightSequence(start: bv8, stop: bv8): (s: seq<bv8>)
    ensures |s| == 8 && s[0] == RIGHT_HORIZONTAL_SCROLL && s[7] == ACTIVATE_SCROLL
    ensures s[2] == start && s[4] == stop
  {
    [RIGHT_HORIZONTAL_SCROLL, 0x00, start, 0x00, stop, 0x00, 0xFF, ACTIVATE_SCROLL]
  }

  // ---------------------------------------------------------------------------------------
  // Traces

  /** The writes of one frame push: the addressing window as commands, then the buffer as data. */
  function DisplayTrace(buf: seq<bv8>): seq<Write> {
    Emit(Cmd, DisplaySequence()) + Emit(Data, buf)
  }

  /** Proof helper (associativity of concatenation): sending the window and then the data after
      a log extends the log by one frame push. */
  lemma DisplayTraceAppends(log: seq<Write>, buf: seq<bv8>)
    ensures log + Emit(Cmd, DisplaySequence()) + Emit(Data, buf) == log + DisplayTrace(buf)
  {
  }

  /** A frame push is six command writes [0x00, 0x21], [0x00, 0], [0x00, 127], [0x00, 0x22],
      [0x00, 0], [0x00, 3], followed by one data write [0x40, buf[v]] per byte, in index order. */
  lemma DisplayTraceShape(buf: seq<bv8>)
    ensures DisplayTrace(buf) ==
              [Write(0x00, 0x21), Write(0x00, 0), Write(0x00, 127),
               Write(0x00, 0x22), Write(0x00, 0), Write(0x00, 3)]
              + seq(|buf|, v requires 0 <= v < |buf| => Write(0x40, buf[v]))
  {
    var t := DisplayTrace(buf);
    var cmds := Emit(Cmd, DisplaySequence());
    var data := Emit(Data, buf);
    forall i | 0 <= i < |cmds| ensures cmds[i] == Write(0x00, DisplaySequence()[i]) {
      assert Parse(cmds[i]) == Some((Cmd, DisplaySequence()[i]));
    }
    forall v | 0 <= v < |buf| ensures data[v] == Write(0x40, buf[v]) {
      assert Parse(data[v]) == Some((Data, buf[v]));
    }
  }

  /** The controller, reading a frame push, receives the window as commands and exactly the
      framebuffer as display data. */
  lemma DisplayTraceRoundTrip(buf: seq<bv8>)
    ensures Payloads(DisplayTrace(buf), CONTROL_CMD) == DisplaySequence()
    ensures Payloads(DisplayTrace(buf), CONTROL_DATA) == buf
  {
    var cmds, data := Emit(Cmd, DisplaySequence()), Emit(Data, buf);
    EmitPayloads(Cmd, DisplaySequence());
    EmitPayloads(Data, buf);
    PayloadsAppend(cmds, data, CONTROL_CMD);
    PayloadsAppend(cmds, data, CONTROL_DATA);
  }

  /** A command sequence sent through writeI2C('cmd', ...) reaches the controller as commands
      only, byte for byte: this is what init, dimDisplay, invertDisplay, startscrollright and
      stopscroll emit. */
  lemma CommandTrace(bs: seq<bv8>)
    ensures Emit(Cmd, bs) == seq(|bs|, i requires 0 <= i < |bs| => Write(0x00, bs[i]))
  {
    var ws := Emit(Cmd, bs);
    forall i | 0 <= i < |bs| ensures ws[i] == Write(0x00, bs[i]) {
      assert Parse(ws[i]) == Some((Cmd, bs[i]));
    }
  }
}
