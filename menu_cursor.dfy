/** `MenuCursor.readKey` of the installer script: the bytes returned by one
    `read(2)` of at most eight bytes, decoded into a key name. The terminal
    mode switch around the read is not part of this model; the read's result is
    an input. */
module MenuCursor {

  type Byte = x: int | 0 <= x < 256

  const Esc: Byte := 27
  const Bracket: Byte := 91
  const OKey: Byte := 79
  const Tilde: Byte := 126

  /** The key names `readKey` returns; `Char(c)` is a one-character string. */
  datatype Key =
    | Up | Down | Right | Left | Home | End | PageUp | PageDown | Delete | F1 | F2
    | Escape | Enter | Space | Backspace | Tab
    | Char(c: char)

  datatype Option<T> = None | Some(value: T)

  predicate Printable(b: int) {
    33 <= b <= 126
  }

  /** `readKey` given the byte count `read` returned (negative on error) and the
      eight-byte buffer it filled. */
  function ReadKey(bytesRead: int, buffer: seq<Byte>): (r: Option<Key>)
    requires |buffer| == 8 && bytesRead <= 8
    ensures bytesRead <= 0 ==> r.None?
    ensures bytesRead > 0 && buffer[0] == Esc ==> r.Some?
    ensures bytesRead > 0 && buffer[0] != Esc ==>
      (r.None? <==> !(buffer[0] in {8, 9, 10, 13, 32, 127} || Printable(buffer[0])))
  {
    if bytesRead <= 0 then None
    else if buffer[0] == Esc then Some(EscapeKey(bytesRead, buffer))
    else SingleKey(buffer[0])
  }

  /** The key of a read that starts with ESC. */
  function EscapeKey(bytesRead: int, buffer: seq<Byte>): Key
    requires |buffer| == 8 && 0 < bytesRead <= 8 && buffer[0] == Esc
  {
    if bytesRead >= 3 && buffer[1] == Bracket && buffer[2] in {65, 66, 67, 68, 72, 70} then
      match buffer[2]
      case 65 => Up
      case 66 => Down
      case 67 => Right
      case 68 => Left
      case 72 => Home
      case 70 => End
    else if bytesRead >= 4 && buffer[1] == Bracket && buffer[3] == Tilde && buffer[2] in {49, 51, 52, 53, 54} then
      match buffer[2]
      case 49 => Home
      case 51 => Delete
      case 52 => End
      case 53 => PageUp
      case 54 => PageDown
    else if bytesRead >= 3 && buffer[1] == OKey && buffer[2] in {80, 81} then
      if buffer[2] == 80 then F1 else F2
    else Escape
  }

  /** The key of a read decided by its first byte alone. */
  function SingleKey(b: Byte): Option<Key>
  {
    if b == 10 || b == 13 then Some(Enter)
    else if b == 32 then Some(Space)
    else if b == 127 || b == 8 then Some(Backspace)
    else if b == 9 then Some(Tab)
    else if Printable(b) then Some(Char(b as char))
    else None
  }

  // ---------------------------------------------------------------------------
  // An encoder for the keys, to state what the decoder recognises

  /** Keys a terminal can produce for `readKey`: characters are printable ASCII. */
  predicate Encodable(k: Key) {
    k.Char? ==> Printable(k.c as int)
  }

  /** The canonical bytes a terminal sends for a key. */
  function KeyBytes(k: Key): (bs: seq<Byte>)
    requires Encodable(k)
    ensures 1 <= |bs| <= 4
  {
    match k
    case Up => [Esc, Bracket, 65]
    case Down => [Esc, Bracket, 66]
    case Right => [Esc, Bracket, 67]
    case Left => [Esc, Bracket, 68]
    case Home => [Esc, Bracket, 72]
    case End => [Esc, Bracket, 70]
    case PageUp => [Esc, Bracket, 53, Tilde]
    case PageDown => [Esc, Bracket, 54, Tilde]
    case Delete => [Esc, Bracket, 51, Tilde]
    case F1 => [Esc, OKey, 80]
    case F2 => [Esc, OKey, 81]
    case Escape => [Esc]
    case Enter => [13]
    case Space => [32]
    case Backspace => [127]
    case Tab => [9]
    case Char(c) => [c as int]
  }

  /** The read buffer after `read` stored `bs`: the rest stays zero. */
  function Buffer(bs: seq<Byte>): (buffer: seq<Byte>)
    requires |bs| <= 8
    ensures |buffer| == 8 && buffer[..|bs|] == bs
  {
    bs + seq(8 - |bs|, _ => 0)
  }

  /** Every key decodes from the bytes its terminal sends. */
  lemma ReadKeyRoundTrip(k: Key)
    requires Encodable(k)
    ensures ReadKey(|KeyBytes(k)|, Buffer(KeyBytes(k))) == Some(k)
  {
    var bs := KeyBytes(k);
    var buf := Buffer(bs);
    assert forall i :: 0 <= i < |bs| ==> buf[i] == bs[i];
    if k.Char? {
      assert (k.c as int) as char == k.c;
    }
  }

  // ---------------------------------------------------------------------------
  // Case properties

  /** Outside escape sequences only the first byte counts, however many bytes
      were read. */
  lemma ReadKeyFirstByteOnly(bytesRead: int, buffer: seq<Byte>)
    requires |buffer| == 8 && 0 < bytesRead <= 8 && buffer[0] != Esc
    ensures ReadKey(bytesRead, buffer) == ReadKey(1, Buffer([buffer[0]]))
  {
  }

  /** Line feed and carriage return both mean Enter; 8 and 127 both mean
      Backspace. */
  lemma ReadKeyControlBytes(bytesRead: int, buffer: seq<Byte>)
    requires |buffer| == 8 && 0 < bytesRead <= 8
    ensures buffer[0] in {10, 13} ==> ReadKey(bytesRead, buffer) == Some(Enter)
    ensures buffer[0] in {8, 127} ==> ReadKey(bytesRead, buffer) == Some(Backspace)
    ensures buffer[0] == 32 ==> ReadKey(bytesRead, buffer) == Some(Space)
    ensures buffer[0] == 9 ==> ReadKey(bytesRead, buffer) == Some(Tab)
    ensures Printable(buffer[0]) ==> ReadKey(bytesRead, buffer) == Some(Char(buffer[0] as char))
  {
  }

  /** An ESC read of fewer than three bytes, or one whose second byte is
      neither `[` nor `O`, is the Escape key. */
  lemma ReadKeyUnknownEscape(bytesRead: int, buffer: seq<Byte>)
    requires |buffer| == 8 && 0 < bytesRead <= 8 && buffer[0] == Esc
    requires bytesRead < 3 || buffer[1] !in {Bracket, OKey}
    ensures ReadKey(bytesRead, buffer) == Some(Escape)
  {
  }

  /** The whole table for reads starting with ESC: `ESC [ A/B/C/D/H/F`, the
      four-byte forms `ESC [ 1/3/4/5/6 ~` (Home, Delete, End, PageUp,
      PageDown), `ESC O P/Q`, and the Escape key for every other read. */
  lemma ReadKeyEscapeTable(bytesRead: int, buffer: seq<Byte>)
    requires |buffer| == 8 && 0 < bytesRead <= 8 && buffer[0] == Esc
    ensures var r := ReadKey(bytesRead, buffer);
      var csi := bytesRead >= 3 && buffer[1] == Bracket;
      (csi && buffer[2] == 65 ==> r == Some(Up)) &&
      (csi && buffer[2] == 66 ==> r == Some(Down)) &&
      (csi && buffer[2] == 67 ==> r == Some(Right)) &&
      (csi && buffer[2] == 68 ==> r == Some(Left)) &&
      (csi && buffer[2] == 72 ==> r == Some(Home)) &&
      (csi && buffer[2] == 70 ==> r == Some(End))
    ensures var r := ReadKey(bytesRead, buffer);
      var tilde := bytesRead >= 4 && buffer[1] == Bracket && buffer[3] == Tilde;
      (tilde && buffer[2] == 49 ==> r == Some(Home)) &&
      (tilde && buffer[2] == 51 ==> r == Some(Delete)) &&
      (tilde && buffer[2] == 52 ==> r == Some(End)) &&
      (tilde && buffer[2] == 53 ==> r == Some(PageUp)) &&
      (tilde && buffer[2] == 54 ==> r == Some(PageDown))
    ensures var r := ReadKey(bytesRead, buffer);
      var ss3 := bytesRead >= 3 && buffer[1] == OKey;
      (ss3 && buffer[2] == 80 ==> r == Some(F1)) &&
      (ss3 && buffer[2] == 81 ==> r == Some(F2))
    ensures !(bytesRead >= 3 && buffer[1] == Bracket && buffer[2] in {65, 66, 67, 68, 72, 70}) &&
            !(bytesRead >= 4 && buffer[1] == Bracket && buffer[3] == Tilde && buffer[2] in {49, 51, 52, 53, 54}) &&
            !(bytesRead >= 3 && buffer[1] == OKey && buffer[2] in {80, 81}) ==>
      ReadKey(bytesRead, buffer) == Some(Escape)
  {
  }

  /** Only the first four bytes, and only those `read` returned, decide the key:
      what lies after them in the buffer is ignored. */
  lemma ReadKeyReadsAtMostFour(bytesRead: int, a: seq<Byte>, b: seq<Byte>)
    requires |a| == 8 && |b| == 8 && bytesRead <= 8
    requires forall i :: 0 <= i < bytesRead && i < 4 ==> a[i] == b[i]
    ensures ReadKey(bytesRead, a) == ReadKey(bytesRead, b)
  {
  }

  /** `ESC [ n ~` needs the fourth byte: with only three bytes read, the digit
      forms are the Escape key. */
  lemma ReadKeyTildeNeedsFourBytes(buffer: seq<Byte>)
    requires |buffer| == 8 && buffer[0] == Esc && buffer[1] == Bracket && buffer[2] in {49, 51, 52, 53, 54}
    ensures ReadKey(3, buffer) == Some(Escape)
  {
  }
}
