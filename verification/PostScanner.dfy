/** The delimiter scanner that runs beneath the MIME parser of a browser form upload. */
module PostScanner {
  import opened Bytes

  const SPACE: byte := 32
  const TAB: byte := 9
  const DASH: byte := 45

  /** Bytes a form may spend outside its file, and bytes it may spend before the file part is recognized. */
  const FORM_OVERHEAD := 20 * 1024
  const BEFORE_FILE := 52 * 1024

  function Dashes(b: seq<byte>): seq<byte> { [DASH, DASH] + b }

  function Closing(b: seq<byte>): seq<byte> { CRLF + Dashes(b) + [DASH, DASH] }

  function BareClosing(b: seq<byte>): seq<byte> { [LF] + Dashes(b) + [DASH, DASH] }

  function BareLine(b: seq<byte>): seq<byte> { [LF] + Dashes(b) + CRLF }

  /** Bytes kept for matching. */
  function Window(b: seq<byte>): nat { |b| + 8 }

  /** A boundary as the media type check accepts it holds no line ending. */
  predicate Boundary(b: seq<byte>) {
    CR !in b && LF !in b
  }

  predicate Blank(x: byte) { x == SPACE || x == TAB }

  predicate White(x: byte) { Blank(x) || x == CR || x == LF }

  /** The preamble line being read and the bytes of the lines before it. */
  datatype Line = Line(pendingCR: bool, length: nat, whitespace: bool, preamble: nat)

  /** A closing delimiter that still needs its line to end. */
  datatype Close = Close(pending: bool, cr: bool, bareLF: bool)

  datatype Scanner = Scanner(
    scan: seq<byte>,
    line: Line,
    close: Close,
    isOpen: bool,
    isClosed: bool,
    invalid: bool,
    tooLarge: bool)

  const NOT_CLOSING := Close(false, false, false)

  const INITIAL := Scanner([], Line(false, 0, true, 0), NOT_CLOSING, false, false, false, false)

  function Append(scan: seq<byte>, x: byte, keep: nat): seq<byte>
    requires keep > 0
  {
    if |scan| >= keep then scan[1..keep] + [x] else scan + [x]
  }

  /** A line of the preamble has ended: it opens the form, or it must be blank. */
  function LineEnd(b: seq<byte>, s: Scanner): Scanner {
    var opens := s.line.length == |b| + 2 && s.scan == Dashes(b);
    var blank := !opens && s.line.whitespace;
    var bytes := if blank then s.line.preamble + s.line.length + 2 else s.line.preamble;
    Scanner([], Line(false, 0, true, bytes), s.close, s.isOpen || opens, s.isClosed,
            s.invalid || !(opens || blank), s.tooLarge || (blank && bytes > FORM_OVERHEAD))
  }

  function PreambleByte(b: seq<byte>, s: Scanner, x: byte): Scanner {
    if s.line.pendingCR then
      if x == LF then LineEnd(b, s) else s.(line := s.line.(pendingCR := false), invalid := true)
    else if x == CR then s.(line := s.line.(pendingCR := true))
    else if x == LF then s.(invalid := true)
    else
      s.(line := Line(false, s.line.length + 1, s.line.whitespace && Blank(x), s.line.preamble),
         scan := if s.line.length + 1 <= |b| + 2 && |s.scan| < |b| + 2 then s.scan + [x] else s.scan)
  }

  datatype Match = NoMatch | BareDelimiter | ClosingDelimiter | BareClosingDelimiter

  /** The delimiter the window ends with; a bare one has no carriage return before its line feed. */
  function Found(b: seq<byte>, scan: seq<byte>): Match {
    var start := |scan| - |BareLine(b)|;
    if EndsWith(scan, BareLine(b)) && (start == 0 || scan[start - 1] != CR) then BareDelimiter
    else if EndsWith(scan, Closing(b)) then ClosingDelimiter
    else if EndsWith(scan, BareClosing(b)) then BareClosingDelimiter
    else NoMatch
  }

  /** A byte of the body, while no closing delimiter is pending. */
  function ScanByte(b: seq<byte>, s: Scanner, scan: seq<byte>, close: Close, x: byte): Scanner {
    var next := Append(scan, x, Window(b));
    var found := Found(b, next);
    s.(scan := next,
       close := Close(close.pending || found.ClosingDelimiter? || found.BareClosingDelimiter?, close.cr,
                      close.bareLF || found.BareClosingDelimiter?),
       invalid := s.invalid || found.BareDelimiter?)
  }

  function ClosingByte(b: seq<byte>, s: Scanner, x: byte): Scanner {
    if !s.close.cr && Blank(x) then s
    else if !s.close.cr && x == CR then s.(close := s.close.(cr := true))
    else if !s.close.cr && x == LF then s.(invalid := true, close := s.close.(pending := false))
    else if s.close.cr && x == LF then
      s.(close := NOT_CLOSING, isClosed := !s.close.bareLF, invalid := s.invalid || s.close.bareLF)
    else ScanByte(b, s, if |s.scan| > 0 then s.scan[1..] else [], NOT_CLOSING, x)
  }

  function Step(b: seq<byte>, s: Scanner, x: byte): Scanner {
    if s.isClosed then (if White(x) then s else s.(invalid := true))
    else if !s.isOpen then PreambleByte(b, s, x)
    else if s.close.pending then ClosingByte(b, s, x)
    else ScanByte(b, s, s.scan, s.close, x)
  }

  /** The scanner after data; it stops at the byte that makes the preamble too large. */
  function Observe(b: seq<byte>, s: Scanner, data: seq<byte>): Scanner
    decreases |data|
  {
    if data == [] then s
    else
      var t := Step(b, s, data[0]);
      if t.tooLarge then t else Observe(b, t, data[1..])
  }

  /** What the scanner's flags say when the stream has ended. */
  predicate Framed(s: Scanner) {
    && !s.invalid && !s.tooLarge && s.isOpen && !s.line.pendingCR
    && (s.isClosed || s.close == Close(true, false, false))
  }

  /** The form was opened and nothing closed it. */
  predicate Unfinished(s: Scanner) {
    !s.invalid && !s.tooLarge && s.isOpen && !s.isClosed && !s.close.pending
  }
}
