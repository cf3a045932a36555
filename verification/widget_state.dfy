/** The board widget's state (`ChessboardState`): 64 squares holding piece
    names such as "wq" or "bp", and a list of markers; writing and reading
    the placement field of a FEN, and the names of the squares. */
module BoardState {
  import opened Wrappers
  import opened Text
  import Fen

  /** What a square holds: a piece name, or nothing (`undefined`). */
  type Cell = Option<string>

  type Squares = s: seq<Cell> | |s| == 64 witness seq(64, _ => None)

  /** A square reads as empty when it holds nothing or the empty name
      (`!piece`). */
  predicate Vacant(c: Cell) {
    c.None? || c.value == ""
  }

  /** A marker: the square index it was added with and its type. Marker
      types are objects compared by identity; `kind` stands for that
      identity, and `None` for a missing type. */
  datatype Marker = Marker(index: Option<int>, kind: Option<nat>)

  datatype Widget = Widget(squares: Squares, markers: seq<Marker>)

  /** The state of a new widget: every square empty, no markers. */
  const Initial: Widget := Widget(seq(64, _ => None), [])

  /* ---------- pieces and markers ---------- */

  /** `setPiece(index, piece)`: the square at `index` holds `piece`. An
      index off the board adds an array slot the widget never reads, so
      the 64 squares stay as they were. */
  function SetPiece(w: Widget, index: int, piece: Cell): (r: Widget)
    ensures r.markers == w.markers
    ensures 0 <= index < 64 ==> r.squares[index] == piece
    ensures forall j | 0 <= j < 64 && j != index :: r.squares[j] == w.squares[j]
  {
    if 0 <= index < 64 then w.(squares := w.squares[index := piece]) else w
  }

  /** `addMarker(index, type)`: the marker goes at the end of the list. */
  function AddMarker(w: Widget, index: Option<int>, kind: Option<nat>): (r: Widget)
    ensures r.squares == w.squares
    ensures |r.markers| == |w.markers| + 1 && r.markers[..|w.markers|] == w.markers
  {
    w.(markers := w.markers + [Marker(index, kind)])
  }

  /** How `removeMarkers` reads its index argument: as written, through
      JavaScript truthiness, so that square 0 reads as no index at all;
      as intended, as given or not. */
  datatype Reading = AsWritten | Intended

  /** The call names a square. */
  predicate IndexGiven(index: Option<int>, rd: Reading) {
    match rd
    case AsWritten => index.Some? && index.value != 0
    case Intended => index.Some?
  }

  /** The filter of `removeMarkers`: a marker without a type goes when its
      index equals the one given; with no index given, a typed marker goes
      when its type is the one given; otherwise it goes when both match. */
  predicate KeepsMarker(m: Marker, index: Option<int>, kind: Option<nat>, rd: Reading) {
    if m.kind.None? then m.index != index
    else if !IndexGiven(index, rd) then m.kind != kind
    else !(m.kind == kind && m.index == index)
  }

  /** The markers the filter keeps, in their order. */
  function KeptMarkers(ms: seq<Marker>, index: Option<int>, kind: Option<nat>, rd: Reading): (r: seq<Marker>)
    ensures |r| <= |ms|
    ensures forall m :: m in r <==> m in ms && KeepsMarker(m, index, kind, rd)
  {
    if |ms| == 0 then []
    else
      var init := KeptMarkers(ms[..|ms| - 1], index, kind, rd);
      var last := ms[|ms| - 1];
      assert ms == ms[..|ms| - 1] + [last];
      if KeepsMarker(last, index, kind, rd) then init + [last] else init
  }

  /** `removeMarkers(index, type)`: with neither argument every marker
      goes; otherwise the filter above decides. */
  function RemoveMarkers(w: Widget, index: Option<int>, kind: Option<nat>, rd: Reading): (r: Widget)
    ensures r.squares == w.squares
    ensures index.None? && kind.None? ==> r.markers == []
    ensures IndexGiven(index, rd) || kind.Some? ==>
      forall m :: m in r.markers <==> m in w.markers && KeepsMarker(m, index, kind, rd)
  {
    if !IndexGiven(index, rd) && kind.None? then w.(markers := [])
    else w.(markers := KeptMarkers(w.markers, index, kind, rd))
  }

  /* ---------- setPosition ---------- */

  /** The characters `setPosition` splits at: '/' and the class `\s`. */
  const Separators: set<char> :=
    {'/', '\t', '\n', '\U{0B}', '\U{0C}', '\r', ' ', '\U{A0}', '\U{1680}', '\U{2028}',
     '\U{2029}', '\U{202F}', '\U{205F}', '\U{3000}', '\U{FEFF}',
     '\U{2000}', '\U{2001}', '\U{2002}', '\U{2003}', '\U{2004}', '\U{2005}',
     '\U{2006}', '\U{2007}', '\U{2008}', '\U{2009}', '\U{200A}'}

  /** `n` dashes. */
  function Dashes(n: nat): (r: string)
    ensures |r| == n && forall i | 0 <= i < n :: r[i] == '-'
  {
    if n == 0 then "" else Dashes(n - 1) + "-"
  }

  /** `row.replace(/\d/g, ...)`: each digit becomes that many dashes. */
  function ExpandDigits(row: string): (r: string)
    ensures forall i | 0 <= i < |r| :: !IsDigit(r[i])
  {
    if |row| == 0 then ""
    else
      var rest := ExpandDigits(row[1..]);
      if IsDigit(row[0]) then Dashes(DigitValue(row[0])) + rest else [row[0]] + rest
  }

  /** `row.substr(c, 1)`: one character, or the empty string past the end. */
  function CharAt(row: string, c: nat): (r: string)
    ensures |r| <= 1
  {
    if c < |row| then [row[c]] else ""
  }

  /** `toUpperCase` / `toLowerCase` on a string. */
  function UpperText(s: string): (r: string)
    ensures |r| == |s|
  {
    seq(|s|, i requires 0 <= i < |s| => ToUpper(s[i]))
  }

  function LowerText(s: string): (r: string)
    ensures |r| == |s|
  {
    seq(|s|, i requires 0 <= i < |s| => ToLower(s[i]))
  }

  /** The piece one character of an expanded rank stands for: a dash is
      nothing, a character that `toUpperCase` leaves alone is white (`"w"`
      and the lower-case letter), any other is black (`"b"` and the
      letter). Past the end of a short rank the empty string is read, and
      names a white piece with no letter. */
  function CellOfText(ch: string): (r: Cell)
    ensures r.None? <==> ch == "-"
    ensures r.Some? ==> |r.value| == |ch| + 1 && r.value[0] in "wb"
  {
    if ch == "-" then None
    else if UpperText(ch) == ch then Some("w" + LowerText(ch))
    else Some("b" + ch)
  }

  /** The eight squares `setPosition` writes from one rank of text. */
  function RankCells(row: string): (r: seq<Cell>)
    ensures |r| == 8
  {
    var expanded := ExpandDigits(row);
    seq(8, c requires 0 <= c < 8 => CellOfText(CharAt(expanded, c)))
  }

  /** The fields `setPosition` splits a trimmed FEN into. */
  function Parts(fen: string): (r: seq<string>)
    ensures |r| >= 1
  {
    Split(Trim(fen), Separators)
  }

  /** `setPosition(fen)`: an empty FEN changes nothing; otherwise the text
      is trimmed and split at '/' and white space, and the first eight
      fields are read as the ranks, the eighth rank first, writing all 64
      squares. Fewer than eight fields make the first rank read `undefined`,
      which throws before any square is written. */
  function SetPosition(w: Widget, fen: string): (r: Result<Widget, string>)
    ensures fen == "" ==> r == Ok(w)
    ensures r.Err? <==> fen != "" && |Parts(fen)| < 8
    ensures r.Ok? ==> r.value.markers == w.markers
    ensures r.Ok? && fen != "" ==>
      forall i | 0 <= i < 64 :: r.value.squares[i].None? || (|r.value.squares[i].value| >= 1 && r.value.squares[i].value[0] in "wb")
  {
    if fen == "" then Ok(w)
    else
      var parts := Parts(fen);
      if |parts| < 8 then Err("TypeError")
      else Ok(w.(squares := seq(64, i requires 0 <= i < 64 => RankCells(parts[7 - i / 8])[i % 8])))
  }

  /* ---------- getPosition ---------- */

  /** The pending count of empty squares, appended only when non-zero. */
  function EmptyRun(n: nat): string {
    if n > 0 then Decimal(n) else ""
  }

  /** The letter written for a piece name: its second character, upper-case
      when the first is "w". */
  function NameText(piece: string): string {
    var color := if |piece| >= 1 then piece[..1] else "";
    var name := if |piece| >= 2 then piece[1..2] else "";
    if color == "w" then UpperText(name) else name
  }

  /** One rank of `getPosition`: runs of empty squares become their count,
      `run` is the length of the run pending before `cells`. */
  function RankText(cells: seq<Cell>, run: nat): string {
    if |cells| == 0 then EmptyRun(run)
    else if Vacant(cells[0]) then RankText(cells[1..], run + 1)
    else EmptyRun(run) + NameText(cells[0].value) + RankText(cells[1..], 0)
  }

  /** The text of rank `k` counted from the eighth (0) down to the first. */
  function RankFromTop(w: Widget, k: nat): string
    requires k < 8
  {
    RankText(w.squares[8 * (7 - k) .. 8 * (7 - k) + 8], 0)
  }

  /** `getPosition()`: the ranks, eighth first, joined with '/'. */
  function GetPosition(w: Widget): string {
    Join(seq(8, k requires 0 <= k < 8 => RankFromTop(w, k)), '/')
  }

  /* ---------- square names ---------- */

  /** `SQUARE_COORDINATES`: the square names in index order, a1 to h8. */
  const SquareNames: seq<string> :=
    ["a1", "b1", "c1", "d1", "e1", "f1", "g1", "h1"] +
    ["a2", "b2", "c2", "d2", "e2", "f2", "g2", "h2"] +
    ["a3", "b3", "c3", "d3", "e3", "f3", "g3", "h3"] +
    ["a4", "b4", "c4", "d4", "e4", "f4", "g4", "h4"] +
    ["a5", "b5", "c5", "d5", "e5", "f5", "g5", "h5"] +
    ["a6", "b6", "c6", "d6", "e6", "f6", "g6", "h6"] +
    ["a7", "b7", "c7", "d7", "e7", "f7", "g7", "h7"] +
    ["a8", "b8", "c8", "d8", "e8", "f8", "g8", "h8"]

  /** `squareToIndex(square)`: eight times the rank less one plus the file,
      the file being the first character's code less that of 'a' and the
      rank the second character read as a number. `None` is `NaN`: an
      empty name, or a second character that is not a number. */
  function SquareToIndex(square: string): (r: Option<int>)
    ensures |square| == 2 && 'a' <= square[0] <= 'h' && '1' <= square[1] <= '8' ==>
      r.Some? && 0 <= r.value < 64
      && r.value % 8 == square[0] as int - 'a' as int
      && r.value / 8 == square[1] as int - '1' as int
  {
    if |square| == 0 then None
    else
      var file := square[0] as int - 'a' as int;
      var rank := if |square| >= 2 then Fen.CharNumber(square[1]) else Some(0);
      match rank
      case None => None
      case Some(n) => Some(8 * (n - 1) + file)
  }
}
