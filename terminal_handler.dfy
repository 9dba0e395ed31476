/** `TerminalHandler` of the CLI: raw-mode switching with save/restore of the
    terminal attributes, and `readKeystroke`, a second key decoder that differs
    from the installer script's `MenuCursor.readKey`. */
module TerminalHandler {
  import MenuCursor

  type Byte = MenuCursor.Byte

  datatype Option<T> = None | Some(value: T)

  // ---------------------------------------------------------------------------
  // Keystrokes

  datatype Keystroke =
    | ArrowUp | ArrowDown | ArrowLeft | ArrowRight
    | Enter | Escape | Space | Tab | Backspace
    | Character(c: char)
    | Other(code: int)

  /** `readKeystroke` given the byte count `read` returned and the buffer. */
  function ReadKeystroke(bytesRead: int, buffer: seq<Byte>): (r: Option<Keystroke>)
    requires |buffer| == 8 && bytesRead <= 8
    ensures bytesRead <= 0 ==> r.None?
    ensures bytesRead == 1 ==> r.Some?
    ensures bytesRead >= 2 ==>
      (r.Some? <==> bytesRead >= 3 && buffer[0] == 27 && buffer[1] == 91)
    ensures r.Some? && r.value.Other? ==> 0 <= r.value.code < 256
  {
    if bytesRead <= 0 then None
    else if bytesRead == 1 then Some(SingleByte(buffer[0]))
    else if bytesRead >= 3 && buffer[0] == 27 && buffer[1] == 91 then
      Some(match buffer[2]
        case 65 => ArrowUp
        case 66 => ArrowDown
        case 67 => ArrowRight
        case 68 => ArrowLeft
        case _ => Other(buffer[2]))
    else None
  }

  /** The keystroke of a one-byte read. */
  function SingleByte(b: Byte): Keystroke
  {
    match b
    case 13 => Enter
    case 27 => Escape
    case 32 => Space
    case 127 => Backspace
    case 9 => Tab
    case 113 => Character('q')
    case 98 => Character('b')
    case _ => if 32 <= b <= 126 then Character(b as char) else Other(b)
  }

  /** Keystrokes a terminal can produce: printable characters, and `Other`
      codes that are neither named keys nor printable. */
  predicate Producible(k: Keystroke) {
    match k
    case Character(c) => 33 <= c as int <= 126
    case Other(code) => 0 <= code < 256 && code !in {9, 13, 27} && !(32 <= code <= 127)
    case _ => true
  }

  /** The bytes a terminal sends for a keystroke. */
  function KeystrokeBytes(k: Keystroke): (bs: seq<Byte>)
    requires Producible(k)
    ensures 1 <= |bs| <= 3
  {
    match k
    case ArrowUp => [27, 91, 65]
    case ArrowDown => [27, 91, 66]
    case ArrowRight => [27, 91, 67]
    case ArrowLeft => [27, 91, 68]
    case Enter => [13]
    case Escape => [27]
    case Space => [32]
    case Tab => [9]
    case Backspace => [127]
    case Character(c) => [c as int]
    case Other(code) => [code]
  }

  /** Every producible keystroke decodes from its bytes. */
  lemma ReadKeystrokeRoundTrip(k: Keystroke)
    requires Producible(k)
    ensures ReadKeystroke(|KeystrokeBytes(k)|, MenuCursor.Buffer(KeystrokeBytes(k))) == Some(k)
  {
    var bs := KeystrokeBytes(k);
    var buf := MenuCursor.Buffer(bs);
    assert forall i :: 0 <= i < |bs| ==> buf[i] == bs[i];
    if k.Character? {
      assert (k.c as int) as char == k.c;
    }
  }

  /** A single byte: the named keys, 'q' and 'b', other printable characters,
      and `Other` for everything else, line feed and 8 included. */
  lemma SingleByteCases(b: Byte)
    ensures b == 13 ==> SingleByte(b) == Enter
    ensures b == 27 ==> SingleByte(b) == Escape
    ensures b == 127 ==> SingleByte(b) == Backspace
    ensures b == 113 ==> SingleByte(b) == Character('q')
    ensures b == 98 ==> SingleByte(b) == Character('b')
    ensures 33 <= b <= 126 ==> SingleByte(b) == Character(b as char)
    ensures b in {8, 10} ==> SingleByte(b) == Other(b)
  {
  }

  /** `ESC [` followed by anything but A-D is reported as `Other(third byte)`. */
  lemma UnknownCsiIsOther(bytesRead: int, buffer: seq<Byte>)
    requires |buffer| == 8 && 3 <= bytesRead <= 8 && buffer[0] == 27 && buffer[1] == 91
    requires buffer[2] !in {65, 66, 67, 68}
    ensures ReadKeystroke(bytesRead, buffer) == Some(Other(buffer[2]))
  {
  }

  // ---------------------------------------------------------------------------
  // Where the two decoders disagree

  /** A line feed is Enter for `readKey` but `Other(10)` here. */
  lemma LineFeedDisagrees()
    ensures MenuCursor.ReadKey(1, MenuCursor.Buffer([10])) == MenuCursor.Some(MenuCursor.Enter)
    ensures ReadKeystroke(1, MenuCursor.Buffer([10])) == Some(Other(10))
  {
  }

  /** An unknown escape sequence is Escape for `readKey` but no key here. */
  lemma UnknownEscapeDisagrees()
    ensures MenuCursor.ReadKey(2, MenuCursor.Buffer([27, 120])) == MenuCursor.Some(MenuCursor.Escape)
    ensures ReadKeystroke(2, MenuCursor.Buffer([27, 120])) == None
    ensures MenuCursor.ReadKey(3, MenuCursor.Buffer([27, 79, 80])) == MenuCursor.Some(MenuCursor.F1)
    ensures ReadKeystroke(3, MenuCursor.Buffer([27, 79, 80])) == None
  {
  }

  /** Two printable bytes: `readKey` reports the first character, this decoder
      nothing. */
  lemma TwoCharactersDisagree(x: Byte, y: Byte)
    requires 33 <= x <= 126 && 33 <= y <= 126
    ensures MenuCursor.ReadKey(2, MenuCursor.Buffer([x, y])) == MenuCursor.Some(MenuCursor.Char(x as char))
    ensures ReadKeystroke(2, MenuCursor.Buffer([x, y])) == None
  {
    var buf := MenuCursor.Buffer([x, y]);
    assert buf[0] == x && buf[1] == y;
  }

  // ---------------------------------------------------------------------------
  // Raw mode

  type TcFlag = bv64

  /** Darwin's `c_lflag` bits and `c_cc` indices. */
  const ECHO: TcFlag := 0x8
  const ISIG: TcFlag := 0x80
  const ICANON: TcFlag := 0x100
  const NCCS := 20
  const VMIN := 16
  const VTIME := 17

  /** `struct termios`. */
  datatype Termios = Termios(iflag: TcFlag, oflag: TcFlag, cflag: TcFlag, lflag: TcFlag,
                             cc: seq<bv8>, ispeed: int, ospeed: int)

  predicate WellFormed(t: Termios) {
    |t.cc| == NCCS
  }

  /** The attributes `setRawMode` applies: echo, canonical input and signal keys
      off, reads returning after at most a tenth of a second. */
  function RawAttributes(t: Termios): (raw: Termios)
    requires WellFormed(t)
    ensures WellFormed(raw)
  {
    t.(lflag := t.lflag & !(ECHO | ICANON | ISIG),
       cc := t.cc[VMIN := 0][VTIME := 1])
  }

  /** Raw mode clears exactly ECHO, ICANON and ISIG, sets VMIN = 0 and VTIME = 1,
      and leaves every other attribute alone. */
  lemma RawAttributesEffect(t: Termios)
    requires WellFormed(t)
    ensures RawAttributes(t).lflag & (ECHO | ICANON | ISIG) == 0
    ensures RawAttributes(t).lflag & !(ECHO | ICANON | ISIG) == t.lflag & !(ECHO | ICANON | ISIG)
    ensures RawAttributes(t).cc[VMIN] == 0 && RawAttributes(t).cc[VTIME] == 1
    ensures forall i :: 0 <= i < NCCS && i != VMIN && i != VTIME ==> RawAttributes(t).cc[i] == t.cc[i]
    ensures RawAttributes(t).(lflag := t.lflag, cc := t.cc) == t
  {
  }

  /** Raw mode applied to raw attributes changes nothing more. */
  lemma RawAttributesIdempotent(t: Termios)
    requires WellFormed(t)
    ensures RawAttributes(RawAttributes(t)) == RawAttributes(t)
  {
    var r := RawAttributes(t);
    assert r.cc[VMIN := 0][VTIME := 1] == r.cc;
    MaskTwice(t.lflag, !(ECHO | ICANON | ISIG));
  }

  lemma MaskTwice(x: TcFlag, m: TcFlag)
    ensures (x & m) & m == x & m
  {
  }

  /** The terminal device's current attributes (`tcgetattr`/`tcsetattr`). */
  class Terminal {
    var attrs: Termios

    constructor (initial: Termios)
      requires WellFormed(initial)
      ensures attrs == initial
    {
      attrs := initial;
    }
  }

  class Handler {
    var originalTermios: Option<Termios>
    const terminal: Terminal

    ghost predicate Valid()
      reads this, terminal
    {
      WellFormed(terminal.attrs) &&
      (originalTermios.Some? ==> WellFormed(originalTermios.value))
    }

    /** `init` enters raw mode straight away, saving the attributes it found. */
    constructor (term: Terminal)
      requires WellFormed(term.attrs)
      modifies term
      ensures Valid()
      ensures terminal == term
      ensures originalTermios == Some(old(term.attrs))
      ensures term.attrs == RawAttributes(old(term.attrs))
    {
      terminal := term;
      originalTermios := Some(term.attrs);
      term.attrs := RawAttributes(term.attrs);
    }

    /** `setRawMode`: save the current attributes, whatever they are, then
        switch to raw mode. */
    method SetRawMode()
      requires Valid()
      modifies this, terminal
      ensures Valid()
      ensures originalTermios == Some(old(terminal.attrs))
      ensures terminal.attrs == RawAttributes(old(terminal.attrs))
    {
      originalTermios := Some(terminal.attrs);
      terminal.attrs := RawAttributes(terminal.attrs);
    }

    /** `setRawMode` that keeps the first saved attributes when called again
        while already raw. */
    method SetRawModeGuarded()
      requires Valid()
      modifies this, terminal
      ensures Valid()
      ensures originalTermios == if old(originalTermios).Some? then old(originalTermios) else Some(old(terminal.attrs))
      ensures terminal.attrs == RawAttributes(old(terminal.attrs))
    {
      if originalTermios.None? {
        originalTermios := Some(terminal.attrs);
      }
      terminal.attrs := RawAttributes(terminal.attrs);
    }

    /** `restoreTerminalSettings`: write back exactly what was saved, or do
        nothing when nothing was. */
    method RestoreTerminalSettings()
      requires Valid()
      modifies terminal
      ensures Valid()
      ensures old(originalTermios).Some? ==> terminal.attrs == old(originalTermios).value
      ensures old(originalTermios).None? ==> terminal.attrs == old(terminal.attrs)
    {
      if originalTermios.Some? {
        terminal.attrs := originalTermios.value;
      }
    }

    /** `deinit`. */
    method Release()
      requires Valid()
      modifies terminal
      ensures Valid()
      ensures old(originalTermios).Some? ==> terminal.attrs == old(originalTermios).value
      ensures old(originalTermios).None? ==> terminal.attrs == old(terminal.attrs)
    {
      RestoreTerminalSettings();
    }
  }

  /** A handler's lifetime: created, then released, it leaves the terminal as it
      found it. */
  method Session(term: Terminal)
    requires WellFormed(term.attrs)
    modifies term
    ensures term.attrs == old(term.attrs)
  {
    var h := new Handler(term);
    h.Release();
  }

  /** Entering raw mode twice saves the raw attributes over the original ones,
      so the restore that follows leaves the terminal raw. */
  method NestedRawModeAsWritten(term: Terminal) returns (h: Handler)
    requires WellFormed(term.attrs)
    modifies term
    ensures fresh(h) && h.terminal == term
    ensures term.attrs == RawAttributes(old(term.attrs))
  {
    h := new Handler(term);
    h.SetRawMode();
    RawAttributesIdempotent(old(term.attrs));
    h.RestoreTerminalSettings();
  }

  /** With the guard, a second entry keeps the original attributes and the
      restore brings them back. */
  method NestedRawModeGuarded(term: Terminal) returns (h: Handler)
    requires WellFormed(term.attrs)
    modifies term
    ensures fresh(h) && h.terminal == term
    ensures term.attrs == old(term.attrs)
  {
    h := new Handler(term);
    h.SetRawModeGuarded();
    h.RestoreTerminalSettings();
  }

  /** Attributes with echo on: after nested raw mode as written the terminal no
      longer echoes. */
  lemma NestedRawModeLosesEcho(t: Termios)
    requires WellFormed(t) && t.lflag & ECHO != 0
    ensures RawAttributes(t) != t
    ensures RawAttributes(RawAttributes(t)).lflag & ECHO == 0
  {
    RawAttributesEffect(t);
    RawAttributesIdempotent(t);
    assert RawAttributes(t).lflag & ECHO == 0;
  }
}
