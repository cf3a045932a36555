# monkfish and the cm-chessboard board state, in Dafny

This project models two pieces of a chess web application.

The first is **monkfish**, a JavaScript chess engine. Its position record
holds a 64-cell board of signed piece codes, two colour boards, a king
cache, the castling rights, the en-passant square and two counters. The
engine:

- reads and writes positions in Forsyth-Edwards Notation (FEN);
- generates pseudo-legal moves per piece type;
- filters out moves that leave the mover's king attacked, by playing each
  move and taking it back;
- plays a move as five steps over a mutable position with an undo history;
- reports the game status;
- searches for a best move with a fixed-depth alpha-beta search, scoring
  moves with material weights and piece-square tables.

The second is the board state of **cm-chessboard**, a chessboard widget:

- `ChessboardState` holds 64 squares of piece names (`"wq"`, `"bp"`) and a
  marker list;
- `setPosition` reads the placement field of a FEN, and `getPosition`
  writes it;
- `squareToIndex` and `SQUARE_COORDINATES` name the squares;
- `seekChanges` plans the animation between two boards, pairing vacated
  and newly occupied squares with `squareDistance`.

Everything is modelled functionally:

- a position is an immutable `State`, and a game is that state plus the
  list of saved states;
- a thrown exception is an `Err` of a `Result`;
- JavaScript's `NaN` and `undefined` are `None`;
- the search's infinities are an extended-integer `Score`.

JavaScript's truncating `%` is written out (`Squares.FileOf`).
Out-of-range array writes are modelled as leaving the 64 cells alone.

The main results:

- a position written as FEN reads back unchanged
  (`FenRoundTrip.FenRoundTrip`), except a position whose only castling
  right is `q`, which the engine's reader rejects (see Findings); a reader
  with the castling test corrected reads every position back
  (`FenRoundTrip.FenRoundTripCorrected`);
- every board the FEN reader accepts has one king per side and consistent
  colour boards;
- playing a legal move from a settled position keeps it settled
  (`Safety.LegalKeepsSettled`);
- from a settled position the search always completes and `bestMove` finds
  a legal move (`Safety.SearchSucceeds`, `Safety.BestMoveFound`);
- the alpha-beta search is fail-soft with respect to an unpruned minimax
  over the same sorted moves and scores, and from the full window it
  returns the minimax value and the first move that reaches it
  (`SearchFacts.SearchMinimax`, `SearchFacts.SearchIsMinimax`);
- undo takes back exactly the last move;
- the widget's `getPosition` and `setPosition` are inverse to each other on
  canonical boards and canonical placement fields;
- `seekChanges` accounts for every changed square exactly once.

One behaviour of the engine differs from the usual rules of chess, and is
modelled as the code has it: the half-move clock restarts only on a
capture, including an en-passant capture, and not on a pawn move. The move
number is raised after black has moved, as the FEN rules of section
16.1.3.6 of the PGN standard prescribe.

## Model

| member | source | states |
|---|---|---|
| Pieces.PieceOfLetter | next.lock/data/https_cdn.skypack.dev/monkfish_v0.1.15-qhtgsTUvoEkAVNoiasGl_dist_es2019_mode_imports_optimized_monkfish_77ae260e2c0e9879be63.js:14-27 | A letter names a piece exactly when it is one of the twelve letters of the table; the piece is white exactly for an upper-case letter. |
| Pieces.LetterOfPiece | next.lock/data/https_cdn.skypack.dev/monkfish_v0.1.15-qhtgsTUvoEkAVNoiasGl_dist_es2019_mode_imports_optimized_monkfish_77ae260e2c0e9879be63.js:28 | The inverse table names exactly the twelve piece codes, and each letter it gives reads back as the same code. |
| Pieces.LetterRoundTrip | next.lock/data/https_cdn.skypack.dev/monkfish_v0.1.15-qhtgsTUvoEkAVNoiasGl_dist_es2019_mode_imports_optimized_monkfish_77ae260e2c0e9879be63.js:14-28 | Reading a piece letter and writing it back gives the letter. |
| Pieces.PieceOfKey | next.lock/data/https_cdn.skypack.dev/monkfish_v0.1.15-qhtgsTUvoEkAVNoiasGl_dist_es2019_mode_imports_optimized_monkfish_77ae260e2c0e9879be63.js:234 | A promotion key found in the letter table is a one-letter string, and the piece is that letter's piece. |
| Squares.SquareParts | next.lock/data/https_cdn.skypack.dev/monkfish_v0.1.15-qhtgsTUvoEkAVNoiasGl_dist_es2019_mode_imports_optimized_monkfish_77ae260e2c0e9879be63.js:45-47 | A valid square splits into a file and a rank in 0..7 with square = rank * 8 + file. |
| Squares.SquareToNotation | next.lock/data/https_cdn.skypack.dev/monkfish_v0.1.15-qhtgsTUvoEkAVNoiasGl_dist_es2019_mode_imports_optimized_monkfish_77ae260e2c0e9879be63.js:76-80 | A valid square prints as a file letter a-h followed by a rank digit 1-8. |
| Squares.NotationToSquare | next.lock/data/https_cdn.skypack.dev/monkfish_v0.1.15-qhtgsTUvoEkAVNoiasGl_dist_es2019_mode_imports_optimized_monkfish_77ae260e2c0e9879be63.js:70-75 | A name yields a square exactly when it starts with a file letter and a rank digit; the square is then rank * 8 + file and prints back as those two characters. |
| Squares.NotationRoundTrip | next.lock/data/https_cdn.skypack.dev/monkfish_v0.1.15-qhtgsTUvoEkAVNoiasGl_dist_es2019_mode_imports_optimized_monkfish_77ae260e2c0e9879be63.js:70-80 | Printing a valid square and reading it back gives the square. |
| Squares.ShadeAlternates | next.lock/data/https_cdn.skypack.dev/monkfish_v0.1.15-qhtgsTUvoEkAVNoiasGl_dist_es2019_mode_imports_optimized_monkfish_77ae260e2c0e9879be63.js:101-111 | Neighbouring squares on a rank, and on a file, have opposite shades. |
| Position.Opposite | next.lock/data/https_cdn.skypack.dev/monkfish_v0.1.15-qhtgsTUvoEkAVNoiasGl_dist_es2019_mode_imports_optimized_monkfish_77ae260e2c0e9879be63.js:44 | The opposite of "w" is "b", and the opposite of every other colour, "b" included, is "w". |
| Position.Put | next.lock/data/https_cdn.skypack.dev/monkfish_v0.1.15-qhtgsTUvoEkAVNoiasGl_dist_es2019_mode_imports_optimized_monkfish_77ae260e2c0e9879be63.js:125-171 | An array write sets the cell of an on-board index and leaves every other cell alone. |
| Position.WhitePart | next.lock/data/https_cdn.skypack.dev/monkfish_v0.1.15-qhtgsTUvoEkAVNoiasGl_dist_es2019_mode_imports_optimized_monkfish_77ae260e2c0e9879be63.js:1732-1745 | The white board holds each positive cell of the board and zero elsewhere. |
| Position.BlackPart | next.lock/data/https_cdn.skypack.dev/monkfish_v0.1.15-qhtgsTUvoEkAVNoiasGl_dist_es2019_mode_imports_optimized_monkfish_77ae260e2c0e9879be63.js:1732-1745 | The black board holds each negative cell of the board and zero elsewhere. |
| Rays.KingRays | next.lock/data/https_cdn.skypack.dev/monkfish_v0.1.15-qhtgsTUvoEkAVNoiasGl_dist_es2019_mode_imports_optimized_monkfish_77ae260e2c0e9879be63.js:436-491 | Each of the king's eight directions has a step limit of zero or one. |
| Rays.RayGeometry | next.lock/data/https_cdn.skypack.dev/monkfish_v0.1.15-qhtgsTUvoEkAVNoiasGl_dist_es2019_mode_imports_optimized_monkfish_77ae260e2c0e9879be63.js:112-122 | Within its step limit a queen or king ray moves a fixed number of files and ranks per step and never wraps around a board edge. |
| Attacks.RayReachesIff | next.lock/data/https_cdn.skypack.dev/monkfish_v0.1.15-qhtgsTUvoEkAVNoiasGl_dist_es2019_mode_imports_optimized_monkfish_77ae260e2c0e9879be63.js:299-350 | A sliding attack reaches the target exactly when the target is on the ray within the step limit and every square before it is empty. |
| Attacks.KnightGeometry | next.lock/data/https_cdn.skypack.dev/monkfish_v0.1.15-qhtgsTUvoEkAVNoiasGl_dist_es2019_mode_imports_optimized_monkfish_77ae260e2c0e9879be63.js:638-828 | A knight attack changes the file by one and the rank by two, or the file by two and the rank by one. |
| Attacks.PawnAttackGeometry | next.lock/data/https_cdn.skypack.dev/monkfish_v0.1.15-qhtgsTUvoEkAVNoiasGl_dist_es2019_mode_imports_optimized_monkfish_77ae260e2c0e9879be63.js:1003-1106 | A pawn attacks one file to either side and one rank forward for its colour. |
| Attacks.AttackedOnBoard | next.lock/data/https_cdn.skypack.dev/monkfish_v0.1.15-qhtgsTUvoEkAVNoiasGl_dist_es2019_mode_imports_optimized_monkfish_77ae260e2c0e9879be63.js:1163-1186 | When the colour boards agree with the board, a colour attacks a square exactly when some piece of that colour on the board attacks it. |
| GeneratorFacts.RayMoveFacts | next.lock/data/https_cdn.skypack.dev/monkfish_v0.1.15-qhtgsTUvoEkAVNoiasGl_dist_es2019_mode_imports_optimized_monkfish_77ae260e2c0e9879be63.js:243-298 | Every sliding move goes from the start square along the ray to an empty or enemy square, and the attack oracle reaches that square. |
| GeneratorFacts.KnightMoveFacts | next.lock/data/https_cdn.skypack.dev/monkfish_v0.1.15-qhtgsTUvoEkAVNoiasGl_dist_es2019_mode_imports_optimized_monkfish_77ae260e2c0e9879be63.js:540-637 | Every knight move is a quiet move of the mover's knight to an on-board square other than the start, empty or enemy, that a knight attack reaches. |
| GeneratorFacts.WhitePawnFacts | next.lock/data/https_cdn.skypack.dev/monkfish_v0.1.15-qhtgsTUvoEkAVNoiasGl_dist_es2019_mode_imports_optimized_monkfish_77ae260e2c0e9879be63.js:916-1002 | Every white pawn move is a push to an empty square, a double push from the second rank, a diagonal capture or an en-passant capture, with the promotion on the last rank. |
| GeneratorFacts.BlackPawnFacts | next.lock/data/https_cdn.skypack.dev/monkfish_v0.1.15-qhtgsTUvoEkAVNoiasGl_dist_es2019_mode_imports_optimized_monkfish_77ae260e2c0e9879be63.js:829-915 | The same for black pawns, in the other direction. |
| GeneratorFacts.CastleMoveFacts | next.lock/data/https_cdn.skypack.dev/monkfish_v0.1.15-qhtgsTUvoEkAVNoiasGl_dist_es2019_mode_imports_optimized_monkfish_77ae260e2c0e9879be63.js:507-539 | The generator offers castling only with the side's right letter held, the squares between king and rook empty and the king's squares unattacked; under the standing invariants (king cache current, each held right with its king and rook at home) such a move starts on the king's home square and fits: king and rook at home, both landing squares empty. |
| GeneratorFacts.PieceMovesStart | next.lock/data/https_cdn.skypack.dev/monkfish_v0.1.15-qhtgsTUvoEkAVNoiasGl_dist_es2019_mode_imports_optimized_monkfish_77ae260e2c0e9879be63.js:243-1002 | Every move a piece's generator offers starts on the square it was generated for. |
| GeneratorFacts.PseudoMoveSource | next.lock/data/https_cdn.skypack.dev/monkfish_v0.1.15-qhtgsTUvoEkAVNoiasGl_dist_es2019_mode_imports_optimized_monkfish_77ae260e2c0e9879be63.js:1107-1130 | Every pseudo-legal move comes from one of the mover's pieces and that piece's generator. |
| GeneratorFacts.PseudoMoveFacts | next.lock/data/https_cdn.skypack.dev/monkfish_v0.1.15-qhtgsTUvoEkAVNoiasGl_dist_es2019_mode_imports_optimized_monkfish_77ae260e2c0e9879be63.js:1107-1130 | In a sound position every pseudo-legal move goes to an empty or enemy square; it fits the position unless it takes a king; a capture attacks the captured square. |
| Evaluation.Weight | next.lock/data/https_cdn.skypack.dev/monkfish_v0.1.15-qhtgsTUvoEkAVNoiasGl_dist_es2019_mode_imports_optimized_monkfish_77ae260e2c0e9879be63.js:1232-1245 | Exactly the twelve piece codes have a weight, each at least 100. |
| Evaluation.PieceTable | next.lock/data/https_cdn.skypack.dev/monkfish_v0.1.15-qhtgsTUvoEkAVNoiasGl_dist_es2019_mode_imports_optimized_monkfish_77ae260e2c0e9879be63.js:1648-1663 | The white map holds tables for the white codes only and the black map for the black codes only, each of 64 entries. |
| Evaluation.MirrorIsReverse | next.lock/data/https_cdn.skypack.dev/monkfish_v0.1.15-qhtgsTUvoEkAVNoiasGl_dist_es2019_mode_imports_optimized_monkfish_77ae260e2c0e9879be63.js:1312 | A black table is the white table reversed. |
| Evaluation.BlackTableMirrors | next.lock/data/https_cdn.skypack.dev/monkfish_v0.1.15-qhtgsTUvoEkAVNoiasGl_dist_es2019_mode_imports_optimized_monkfish_77ae260e2c0e9879be63.js:1246-1663 | A black piece on a square scores what the white piece scores on the square turned half a turn. |
| Evaluation.RawScore | next.lock/data/https_cdn.skypack.dev/monkfish_v0.1.15-qhtgsTUvoEkAVNoiasGl_dist_es2019_mode_imports_optimized_monkfish_77ae260e2c0e9879be63.js:1704-1727 | A move has a score exactly when both squares are on the board and the moved piece, the landing piece and any captured piece have tables for their colours. |
| Evaluation.ScoreAntisymmetric | next.lock/data/https_cdn.skypack.dev/monkfish_v0.1.15-qhtgsTUvoEkAVNoiasGl_dist_es2019_mode_imports_optimized_monkfish_77ae260e2c0e9879be63.js:1704-1727 | The AI side and the other side score every move with opposite signs. |
| Evaluation.SortScored | next.lock/data/https_cdn.skypack.dev/monkfish_v0.1.15-qhtgsTUvoEkAVNoiasGl_dist_es2019_mode_imports_optimized_monkfish_77ae260e2c0e9879be63.js:1677-1679 | The sort is a permutation of the scored moves. |
| Evaluation.SortSorted | next.lock/data/https_cdn.skypack.dev/monkfish_v0.1.15-qhtgsTUvoEkAVNoiasGl_dist_es2019_mode_imports_optimized_monkfish_77ae260e2c0e9879be63.js:1679 | The sorted list is ordered by the comparator: highest first for the AI side, lowest first otherwise. |
| Evaluation.SortStable | next.lock/data/https_cdn.skypack.dev/monkfish_v0.1.15-qhtgsTUvoEkAVNoiasGl_dist_es2019_mode_imports_optimized_monkfish_77ae260e2c0e9879be63.js:1679 | The sort is stable: moves with equal scores keep their order. |
| Play.HalfMoveClock | next.lock/data/https_cdn.skypack.dev/monkfish_v0.1.15-qhtgsTUvoEkAVNoiasGl_dist_es2019_mode_imports_optimized_monkfish_77ae260e2c0e9879be63.js:191-197 | The clock restarts exactly on a capture or an en-passant pawn capture and otherwise grows by one. |
| Play.MoveCounter | next.lock/data/https_cdn.skypack.dev/monkfish_v0.1.15-qhtgsTUvoEkAVNoiasGl_dist_es2019_mode_imports_optimized_monkfish_77ae260e2c0e9879be63.js:186-190 | The move number grows by one exactly when black has moved. |
| Play.RemoveRights | next.lock/data/https_cdn.skypack.dev/monkfish_v0.1.15-qhtgsTUvoEkAVNoiasGl_dist_es2019_mode_imports_optimized_monkfish_77ae260e2c0e9879be63.js:199-202 | Removing castling letters keeps exactly the rights not named. |
| Play.UpdateCastling | next.lock/data/https_cdn.skypack.dev/monkfish_v0.1.15-qhtgsTUvoEkAVNoiasGl_dist_es2019_mode_imports_optimized_monkfish_77ae260e2c0e9879be63.js:198-230 | No right is gained; a king move drops both of its side's rights; a rook leaving or captured on its corner drops that corner's right. |
| Play.ApplyMove | next.lock/data/https_cdn.skypack.dev/monkfish_v0.1.15-qhtgsTUvoEkAVNoiasGl_dist_es2019_mode_imports_optimized_monkfish_77ae260e2c0e9879be63.js:123-177 | Side, rights, en-passant square and counters stay; every square outside the move's footprint keeps its contents on all three boards; the destination gets the landing piece and the origin is emptied; the king cache follows a king move. |
| Play.EnPassantAfter | next.lock/data/https_cdn.skypack.dev/monkfish_v0.1.15-qhtgsTUvoEkAVNoiasGl_dist_es2019_mode_imports_optimized_monkfish_77ae260e2c0e9879be63.js:178-185 | An en-passant square appears exactly after a pawn's double step from its home rank, and lies halfway between its two squares. |
| Play.Play | next.lock/data/https_cdn.skypack.dev/monkfish_v0.1.15-qhtgsTUvoEkAVNoiasGl_dist_es2019_mode_imports_optimized_monkfish_77ae260e2c0e9879be63.js:2035-2043 | A move flips the side to move, never gains castling rights, restarts the clock exactly on a capture, and counts a move after black's turn. |
| Invariants.ApplyKeepsConsistent | next.lock/data/https_cdn.skypack.dev/monkfish_v0.1.15-qhtgsTUvoEkAVNoiasGl_dist_es2019_mode_imports_optimized_monkfish_77ae260e2c0e9879be63.js:123-177 | A move that fits keeps the colour boards and the king cache in step with the main board. |
| Invariants.PlayBoard | next.lock/data/https_cdn.skypack.dev/monkfish_v0.1.15-qhtgsTUvoEkAVNoiasGl_dist_es2019_mode_imports_optimized_monkfish_77ae260e2c0e9879be63.js:2035-2043 | After a move each cell holds the expected piece, and the position stays consistent. |
| Invariants.PlayKeepsRights | next.lock/data/https_cdn.skypack.dev/monkfish_v0.1.15-qhtgsTUvoEkAVNoiasGl_dist_es2019_mode_imports_optimized_monkfish_77ae260e2c0e9879be63.js:198-230 | A right that survives a move still has its king and rook at home. |
| Invariants.PlayKeepsEnPassant | next.lock/data/https_cdn.skypack.dev/monkfish_v0.1.15-qhtgsTUvoEkAVNoiasGl_dist_es2019_mode_imports_optimized_monkfish_77ae260e2c0e9879be63.js:178-185 | After a double step the en-passant square is empty and on the sixth rank from the new mover's side. |
| Invariants.PlayKeepsSound | next.lock/data/https_cdn.skypack.dev/monkfish_v0.1.15-qhtgsTUvoEkAVNoiasGl_dist_es2019_mode_imports_optimized_monkfish_77ae260e2c0e9879be63.js:2035-2043 | Every move that fits keeps a sound position sound. |
| Engine.NewGame | next.lock/data/https_cdn.skypack.dev/monkfish_v0.1.15-qhtgsTUvoEkAVNoiasGl_dist_es2019_mode_imports_optimized_monkfish_77ae260e2c0e9879be63.js:1922-1927 | A new game has no history and a consistent position. |
| Engine.Load | next.lock/data/https_cdn.skypack.dev/monkfish_v0.1.15-qhtgsTUvoEkAVNoiasGl_dist_es2019_mode_imports_optimized_monkfish_77ae260e2c0e9879be63.js:1928-1930 | Loading fails exactly when the FEN is rejected and otherwise keeps the history. |
| Engine.Undo | next.lock/data/https_cdn.skypack.dev/monkfish_v0.1.15-qhtgsTUvoEkAVNoiasGl_dist_es2019_mode_imports_optimized_monkfish_77ae260e2c0e9879be63.js:2026-2031 | Undo with no history changes nothing; otherwise it drops the last saved position. |
| Engine.UndoAfterMove | next.lock/data/https_cdn.skypack.dev/monkfish_v0.1.15-qhtgsTUvoEkAVNoiasGl_dist_es2019_mode_imports_optimized_monkfish_77ae260e2c0e9879be63.js:2026-2043 | Undo after a move gives back the game as it was. |
| Engine.UndoAll | next.lock/data/https_cdn.skypack.dev/monkfish_v0.1.15-qhtgsTUvoEkAVNoiasGl_dist_es2019_mode_imports_optimized_monkfish_77ae260e2c0e9879be63.js:2026-2043 | Undoing as many times as moves were played restores the game. |
| Engine.KeepLegal | next.lock/data/https_cdn.skypack.dev/monkfish_v0.1.15-qhtgsTUvoEkAVNoiasGl_dist_es2019_mode_imports_optimized_monkfish_77ae260e2c0e9879be63.js:1131 | The filter keeps exactly the moves that do not leave the mover's king attacked. |
| Engine.LegalMoves | next.lock/data/https_cdn.skypack.dev/monkfish_v0.1.15-qhtgsTUvoEkAVNoiasGl_dist_es2019_mode_imports_optimized_monkfish_77ae260e2c0e9879be63.js:1107-1132 | A move is legal exactly when it is pseudo-legal and does not leave the mover's king attacked. |
| Engine.TryMove | next.lock/data/https_cdn.skypack.dev/monkfish_v0.1.15-qhtgsTUvoEkAVNoiasGl_dist_es2019_mode_imports_optimized_monkfish_77ae260e2c0e9879be63.js:1187-1195 | Testing a move plays it and takes it back, and reports whether the mover's king is then attacked. |
| Engine.PossibleMoves | next.lock/data/https_cdn.skypack.dev/monkfish_v0.1.15-qhtgsTUvoEkAVNoiasGl_dist_es2019_mode_imports_optimized_monkfish_77ae260e2c0e9879be63.js:1107-1132 | The method that plays and undoes each candidate returns exactly the legal moves. |
| Engine.FirstOther | next.lock/data/https_cdn.skypack.dev/monkfish_v0.1.15-qhtgsTUvoEkAVNoiasGl_dist_es2019_mode_imports_optimized_monkfish_77ae260e2c0e9879be63.js:1209-1210 | `find` gives an element other than the excluded value, and nothing exactly when every element is that value. |
| Engine.GameStatus | next.lock/data/https_cdn.skypack.dev/monkfish_v0.1.15-qhtgsTUvoEkAVNoiasGl_dist_es2019_mode_imports_optimized_monkfish_77ae260e2c0e9879be63.js:1947-1966 | Each status holds exactly in its case, in the code's order: playing when the game is not over; without legal moves checkmate when in check, won by the side not to move, and stalemate otherwise; with legal moves the fifty-move draw whenever the clock is at fifty, and the material draw only below fifty. |
| Engine.GameGoesOn | next.lock/data/https_cdn.skypack.dev/monkfish_v0.1.15-qhtgsTUvoEkAVNoiasGl_dist_es2019_mode_imports_optimized_monkfish_77ae260e2c0e9879be63.js:1931-1940 | With a legal move, the clock below fifty and a pawn, rook or queen on the board, the game is not over and its status is playing. |
| Engine.KingsOnlyInsufficient | next.lock/data/https_cdn.skypack.dev/monkfish_v0.1.15-qhtgsTUvoEkAVNoiasGl_dist_es2019_mode_imports_optimized_monkfish_77ae260e2c0e9879be63.js:1196-1231 | King against king, in a consistent position, is too little material. |
| Engine.WhiteMinorInsufficient | next.lock/data/https_cdn.skypack.dev/monkfish_v0.1.15-qhtgsTUvoEkAVNoiasGl_dist_es2019_mode_imports_optimized_monkfish_77ae260e2c0e9879be63.js:1196-1231 | King and one bishop or knight against a lone king is too little material, with white holding the minor piece. |
| Engine.BlackMinorInsufficient | next.lock/data/https_cdn.skypack.dev/monkfish_v0.1.15-qhtgsTUvoEkAVNoiasGl_dist_es2019_mode_imports_optimized_monkfish_77ae260e2c0e9879be63.js:1196-1231 | King and one bishop or knight against a lone king is too little material, with black holding the minor piece. |
| Engine.HeavyPieceSufficient | next.lock/data/https_cdn.skypack.dev/monkfish_v0.1.15-qhtgsTUvoEkAVNoiasGl_dist_es2019_mode_imports_optimized_monkfish_77ae260e2c0e9879be63.js:1196-1231 | Any pawn, rook or queen of either colour on the board rules out the material draw. |
| Engine.PiecesWhere | next.lock/data/https_cdn.skypack.dev/monkfish_v0.1.15-qhtgsTUvoEkAVNoiasGl_dist_es2019_mode_imports_optimized_monkfish_77ae260e2c0e9879be63.js:1196-1231 | The pieces kept from a colour board are exactly its cells of that colour's sign, no more of them than cells. |
| Engine.InCheckOnBoard | next.lock/data/https_cdn.skypack.dev/monkfish_v0.1.15-qhtgsTUvoEkAVNoiasGl_dist_es2019_mode_imports_optimized_monkfish_77ae260e2c0e9879be63.js:1941-1946 | In a consistent position the cached square holds the mover's king, and the mover is in check exactly when some piece of the other colour on the board attacks that square. |
| Engine.MoveSavesPosition | next.lock/data/https_cdn.skypack.dev/monkfish_v0.1.15-qhtgsTUvoEkAVNoiasGl_dist_es2019_mode_imports_optimized_monkfish_77ae260e2c0e9879be63.js:2035-2043 | A move appends the position it was made from after the earlier saved positions and passes the turn to the other side. |
| Engine.PieceOnSquare | next.lock/data/https_cdn.skypack.dev/monkfish_v0.1.15-qhtgsTUvoEkAVNoiasGl_dist_es2019_mode_imports_optimized_monkfish_77ae260e2c0e9879be63.js:1976-1986 | A letter is reported exactly when the square reads as a board index holding a piece, and then it is that piece's letter. |
| Engine.NotationMoves | next.lock/data/https_cdn.skypack.dev/monkfish_v0.1.15-qhtgsTUvoEkAVNoiasGl_dist_es2019_mode_imports_optimized_monkfish_77ae260e2c0e9879be63.js:1987-1995 | The public moves are the legal moves in notation, in order. |
| Engine.MovesForPosition | next.lock/data/https_cdn.skypack.dev/monkfish_v0.1.15-qhtgsTUvoEkAVNoiasGl_dist_es2019_mode_imports_optimized_monkfish_77ae260e2c0e9879be63.js:2008-2017 | An unreadable square reports nothing; for a square in a consistent position the report is exactly the legal moves from that square: each reported move is a public move and the notation of a legal move starting there, and every legal move starting there is reported. |
| Engine.SquareReportExact | next.lock/data/https_cdn.skypack.dev/monkfish_v0.1.15-qhtgsTUvoEkAVNoiasGl_dist_es2019_mode_imports_optimized_monkfish_77ae260e2c0e9879be63.js:2008-2017 | In a consistent position the notation list built for a square is exactly the legal moves starting there. |
| Engine.SquareMovesExact | next.lock/data/https_cdn.skypack.dev/monkfish_v0.1.15-qhtgsTUvoEkAVNoiasGl_dist_es2019_mode_imports_optimized_monkfish_77ae260e2c0e9879be63.js:1133-1162 | In a consistent position the legal moves kept from one square's generated moves are exactly the legal moves starting on that square. |
| Engine.PseudoMovesAt | next.lock/data/https_cdn.skypack.dev/monkfish_v0.1.15-qhtgsTUvoEkAVNoiasGl_dist_es2019_mode_imports_optimized_monkfish_77ae260e2c0e9879be63.js:1133-1162 | Every move the whole-board generator offers is among the moves generated for its own starting square. |
| Engine.SquareMovesAreLegal | next.lock/data/https_cdn.skypack.dev/monkfish_v0.1.15-qhtgsTUvoEkAVNoiasGl_dist_es2019_mode_imports_optimized_monkfish_77ae260e2c0e9879be63.js:1133-1162 | The moves `possibleMovesForSquare` keeps are legal moves. |
| Engine.KeyOf | next.lock/data/https_cdn.skypack.dev/monkfish_v0.1.15-qhtgsTUvoEkAVNoiasGl_dist_es2019_mode_imports_optimized_monkfish_77ae260e2c0e9879be63.js:234 | A promotion request reads as no promotion exactly when it is missing or empty; a request the letter table knows reads as that table's piece; any other request reads as unknown, which matches no move. |
| Engine.FirstFit | next.lock/data/https_cdn.skypack.dev/monkfish_v0.1.15-qhtgsTUvoEkAVNoiasGl_dist_es2019_mode_imports_optimized_monkfish_77ae260e2c0e9879be63.js:238 | `find` gives the first move that matches, and no earlier move matches. |
| Engine.ResolveMove | next.lock/data/https_cdn.skypack.dev/monkfish_v0.1.15-qhtgsTUvoEkAVNoiasGl_dist_es2019_mode_imports_optimized_monkfish_77ae260e2c0e9879be63.js:231-242 | A request fails with "invalid move" exactly when a square is invalid or no move matches; otherwise the result is a move of the list with the named squares and promotion. |
| Engine.ResolveRequestOf | next.lock/data/https_cdn.skypack.dev/monkfish_v0.1.15-qhtgsTUvoEkAVNoiasGl_dist_es2019_mode_imports_optimized_monkfish_77ae260e2c0e9879be63.js:231-242 | Naming a move of the list and resolving the name finds a move with the same squares and promotion. |
| Engine.MoveByNotation | next.lock/data/https_cdn.skypack.dev/monkfish_v0.1.15-qhtgsTUvoEkAVNoiasGl_dist_es2019_mode_imports_optimized_monkfish_77ae260e2c0e9879be63.js:2018-2025 | A move in notation fails exactly when it does not resolve against the legal moves; otherwise it plays a legal move, and undo takes it back. |
| Engine.FenThenLoad | next.lock/data/https_cdn.skypack.dev/monkfish_v0.1.15-qhtgsTUvoEkAVNoiasGl_dist_es2019_mode_imports_optimized_monkfish_77ae260e2c0e9879be63.js:1928-1930 | Loading the game's own FEN gives back the game, for a canonical position: castling rights other than the lone "q" the reader rejects, and counters below 2^53. |
| Safety.LegalMoveFits | next.lock/data/https_cdn.skypack.dev/monkfish_v0.1.15-qhtgsTUvoEkAVNoiasGl_dist_es2019_mode_imports_optimized_monkfish_77ae260e2c0e9879be63.js:1107-1132 | Every legal move of a settled position fits it. |
| Safety.LegalKeepsSettled | next.lock/data/https_cdn.skypack.dev/monkfish_v0.1.15-qhtgsTUvoEkAVNoiasGl_dist_es2019_mode_imports_optimized_monkfish_77ae260e2c0e9879be63.js:2035-2043 | A legal move keeps a settled position settled. |
| Safety.LegalScorable | next.lock/data/https_cdn.skypack.dev/monkfish_v0.1.15-qhtgsTUvoEkAVNoiasGl_dist_es2019_mode_imports_optimized_monkfish_77ae260e2c0e9879be63.js:1704-1727 | Every legal move of a settled position has a score. |
| Safety.PlayAllSettled | next.lock/data/https_cdn.skypack.dev/monkfish_v0.1.15-qhtgsTUvoEkAVNoiasGl_dist_es2019_mode_imports_optimized_monkfish_77ae260e2c0e9879be63.js:2035-2043 | A line of legal moves from a settled position keeps it settled. |
| Safety.SearchSucceeds | next.lock/data/https_cdn.skypack.dev/monkfish_v0.1.15-qhtgsTUvoEkAVNoiasGl_dist_es2019_mode_imports_optimized_monkfish_77ae260e2c0e9879be63.js:1664-1703 | From a settled position the search completes at every depth. |
| Safety.BestMoveFound | next.lock/data/https_cdn.skypack.dev/monkfish_v0.1.15-qhtgsTUvoEkAVNoiasGl_dist_es2019_mode_imports_optimized_monkfish_77ae260e2c0e9879be63.js:1996-2007 | From a settled position with a legal move, `bestMove` at depth one or more finds a move. |
| AlphaBeta.ScoreMovesSome | next.lock/data/https_cdn.skypack.dev/monkfish_v0.1.15-qhtgsTUvoEkAVNoiasGl_dist_es2019_mode_imports_optimized_monkfish_77ae260e2c0e9879be63.js:1677-1678 | The moves are scored exactly when each has a score, and each entry keeps its move and score. |
| AlphaBeta.Search | next.lock/data/https_cdn.skypack.dev/monkfish_v0.1.15-qhtgsTUvoEkAVNoiasGl_dist_es2019_mode_imports_optimized_monkfish_77ae260e2c0e9879be63.js:1664-1703 | A finished search reports on the game it was given with a finite score; below depth one it returns the incoming score and no move. |
| AlphaBeta.SearchSpec | next.lock/data/https_cdn.skypack.dev/monkfish_v0.1.15-qhtgsTUvoEkAVNoiasGl_dist_es2019_mode_imports_optimized_monkfish_77ae260e2c0e9879be63.js:1664-1703 | A move is reported only from depth one, and is then legal; from depth one a legal move is always reported; with no legal move the score is the mate score in check and the incoming score otherwise; a failure needs depth one and a legal move. |
| AlphaBeta.Update | next.lock/data/https_cdn.skypack.dev/monkfish_v0.1.15-qhtgsTUvoEkAVNoiasGl_dist_es2019_mode_imports_optimized_monkfish_77ae260e2c0e9879be63.js:1684-1698 | One loop step keeps the other side's bound and best; the AI side raises its best and alpha on a higher reply, the other side lowers its best and beta on a lower reply. |
| AlphaBeta.SearchChildren | next.lock/data/https_cdn.skypack.dev/monkfish_v0.1.15-qhtgsTUvoEkAVNoiasGl_dist_es2019_mode_imports_optimized_monkfish_77ae260e2c0e9879be63.js:1680-1702 | The loop reports on the same game and, over a non-empty list, a legal move with a finite score. |
| AlphaBeta.ChildrenOk | next.lock/data/https_cdn.skypack.dev/monkfish_v0.1.15-qhtgsTUvoEkAVNoiasGl_dist_es2019_mode_imports_optimized_monkfish_77ae260e2c0e9879be63.js:1680-1702 | The loop completes whenever every reply search completes, whatever the cut-off does. |
| AlphaBeta.BestMove | next.lock/data/https_cdn.skypack.dev/monkfish_v0.1.15-qhtgsTUvoEkAVNoiasGl_dist_es2019_mode_imports_optimized_monkfish_77ae260e2c0e9879be63.js:1996-2007 | `bestMove` gives a public legal move, gives one whenever there is a legal move and the depth is positive, gives none otherwise, and fails exactly when the search fails. |
| SearchFacts.BestValue | next.lock/data/https_cdn.skypack.dev/monkfish_v0.1.15-qhtgsTUvoEkAVNoiasGl_dist_es2019_mode_imports_optimized_monkfish_77ae260e2c0e9879be63.js:1680-1702 | The best value for the side is one of the values, and at least as good for the side (highest for the AI side, lowest for the other) as every value. |
| SearchFacts.FirstBest | next.lock/data/https_cdn.skypack.dev/monkfish_v0.1.15-qhtgsTUvoEkAVNoiasGl_dist_es2019_mode_imports_optimized_monkfish_77ae260e2c0e9879be63.js:1684-1698 | The first place of the best value: every value before it is strictly worse, as the loop replaces its best only on a strictly better reply. |
| SearchFacts.PrincipalMove | next.lock/data/https_cdn.skypack.dev/monkfish_v0.1.15-qhtgsTUvoEkAVNoiasGl_dist_es2019_mode_imports_optimized_monkfish_77ae260e2c0e9879be63.js:1664-1702 | The unpruned reference's move exists exactly when its value does, and is a legal move from depth one on. |
| SearchFacts.RepliesValues | next.lock/data/https_cdn.skypack.dev/monkfish_v0.1.15-qhtgsTUvoEkAVNoiasGl_dist_es2019_mode_imports_optimized_monkfish_77ae260e2c0e9879be63.js:1677-1682 | The reference values every sorted reply one ply deeper for the other side, with the move's score added to the score so far. |
| SearchFacts.HighTurn | next.lock/data/https_cdn.skypack.dev/monkfish_v0.1.15-qhtgsTUvoEkAVNoiasGl_dist_es2019_mode_imports_optimized_monkfish_77ae260e2c0e9879be63.js:1684-1700 | A turn of the AI side's loop on a fail-soft reply keeps alpha at the incoming alpha raised by the highest reply, keeps every reply at or below the highest, and keeps the held move the first reply to reach it; a cut-off reports the reply, which bounds the position's value from below. |
| SearchFacts.LowTurn | next.lock/data/https_cdn.skypack.dev/monkfish_v0.1.15-qhtgsTUvoEkAVNoiasGl_dist_es2019_mode_imports_optimized_monkfish_77ae260e2c0e9879be63.js:1691-1700 | The same for the other side's loop, with beta lowered by the lowest reply and the cut-off bounding the value from above. |
| SearchFacts.TrackingDone | next.lock/data/https_cdn.skypack.dev/monkfish_v0.1.15-qhtgsTUvoEkAVNoiasGl_dist_es2019_mode_imports_optimized_monkfish_77ae260e2c0e9879be63.js:1701-1702 | After the last reply the reported best is fail-soft for the position, and inside the window its move is the first best reply. |
| SearchFacts.ChildrenMinimax | next.lock/data/https_cdn.skypack.dev/monkfish_v0.1.15-qhtgsTUvoEkAVNoiasGl_dist_es2019_mode_imports_optimized_monkfish_77ae260e2c0e9879be63.js:1680-1702 | The loop over the sorted replies reports the best reply value fail-soft, with the first best reply's move when the report lies inside the window. |
| SearchFacts.SearchMinimax | next.lock/data/https_cdn.skypack.dev/monkfish_v0.1.15-qhtgsTUvoEkAVNoiasGl_dist_es2019_mode_imports_optimized_monkfish_77ae260e2c0e9879be63.js:1664-1702 | Whenever the unpruned reference has a value, the search from any open window completes and reports it fail-soft: a report at or below alpha bounds the value from above, one at or above beta bounds it from below, and one strictly inside is the value. |
| SearchFacts.SearchPrincipal | next.lock/data/https_cdn.skypack.dev/monkfish_v0.1.15-qhtgsTUvoEkAVNoiasGl_dist_es2019_mode_imports_optimized_monkfish_77ae260e2c0e9879be63.js:1664-1702 | A report strictly inside an open window comes with the reference's move. |
| SearchFacts.SearchIsMinimax | next.lock/data/https_cdn.skypack.dev/monkfish_v0.1.15-qhtgsTUvoEkAVNoiasGl_dist_es2019_mode_imports_optimized_monkfish_77ae260e2c0e9879be63.js:1664-1702 | From the full window the search returns exactly the unpruned reference: its value, and the first move in the sorted order whose reply reaches that value. |
| SearchFacts.BestMoveIsMinimax | next.lock/data/https_cdn.skypack.dev/monkfish_v0.1.15-qhtgsTUvoEkAVNoiasGl_dist_es2019_mode_imports_optimized_monkfish_77ae260e2c0e9879be63.js:1996-2007 | `bestMove` plays, in notation, the move of the unpruned reference for the AI side. |
| Fen.RowCells | next.lock/data/https_cdn.skypack.dev/monkfish_v0.1.15-qhtgsTUvoEkAVNoiasGl_dist_es2019_mode_imports_optimized_monkfish_77ae260e2c0e9879be63.js:1756-1795 | An accepted rank gives exactly eight cells. |
| Fen.FenToBoard | next.lock/data/https_cdn.skypack.dev/monkfish_v0.1.15-qhtgsTUvoEkAVNoiasGl_dist_es2019_mode_imports_optimized_monkfish_77ae260e2c0e9879be63.js:1746-1797 | An accepted board holds only piece codes and empty cells, and its text contains both king letters; every failure is the same error. |
| Fen.ParseFen | next.lock/data/https_cdn.skypack.dev/monkfish_v0.1.15-qhtgsTUvoEkAVNoiasGl_dist_es2019_mode_imports_optimized_monkfish_77ae260e2c0e9879be63.js:1818-1860 | A FEN is accepted exactly when it splits at spaces into six fields that each pass their pattern, and the fields are returned; any other field count fails with "missing FEN parts", and a castling field the chosen castling test rejects fails with "invalid castling". The engine uses the test as written. |
| Fen.IndexOf | next.lock/data/https_cdn.skypack.dev/monkfish_v0.1.15-qhtgsTUvoEkAVNoiasGl_dist_es2019_mode_imports_optimized_monkfish_77ae260e2c0e9879be63.js:1865-1866 | `findIndex` gives the first cell holding the value, or -1 when no cell does. |
| Fen.FenToState | next.lock/data/https_cdn.skypack.dev/monkfish_v0.1.15-qhtgsTUvoEkAVNoiasGl_dist_es2019_mode_imports_optimized_monkfish_77ae260e2c0e9879be63.js:1861-1883 | A position is accepted exactly when the fields and the board are, with the parser's error otherwise; an accepted position has colour boards matching its board. |
| FenFacts.FenBoardKings | next.lock/data/https_cdn.skypack.dev/monkfish_v0.1.15-qhtgsTUvoEkAVNoiasGl_dist_es2019_mode_imports_optimized_monkfish_77ae260e2c0e9879be63.js:1746-1797 | A board `fenToBoard` accepts has exactly one king of each colour. |
| FenFacts.FenStateConsistent | next.lock/data/https_cdn.skypack.dev/monkfish_v0.1.15-qhtgsTUvoEkAVNoiasGl_dist_es2019_mode_imports_optimized_monkfish_77ae260e2c0e9879be63.js:1861-1883 | Every position `fenToState` accepts, under either castling test, is consistent: colour boards and king cache agree with the board. |
| FenFacts.CastlingAsWrittenRejectsOnlyQ | next.lock/data/https_cdn.skypack.dev/monkfish_v0.1.15-qhtgsTUvoEkAVNoiasGl_dist_es2019_mode_imports_optimized_monkfish_77ae260e2c0e9879be63.js:1836-1839 | Of the well-formed castling fields, the pattern as written rejects exactly "q". |
| FenRoundTrip.RankRoundTrip | next.lock/data/https_cdn.skypack.dev/monkfish_v0.1.15-qhtgsTUvoEkAVNoiasGl_dist_es2019_mode_imports_optimized_monkfish_77ae260e2c0e9879be63.js:1798-1817 | Reading back the text of a rank gives its eight cells. |
| FenRoundTrip.BoardTextAccepted | next.lock/data/https_cdn.skypack.dev/monkfish_v0.1.15-qhtgsTUvoEkAVNoiasGl_dist_es2019_mode_imports_optimized_monkfish_77ae260e2c0e9879be63.js:1824-1831 | The text `boardToFen` writes passes the position pattern and has no double digit. |
| FenRoundTrip.BoardRoundTrip | next.lock/data/https_cdn.skypack.dev/monkfish_v0.1.15-qhtgsTUvoEkAVNoiasGl_dist_es2019_mode_imports_optimized_monkfish_77ae260e2c0e9879be63.js:1746-1817 | `fenToBoard` reads back the board `boardToFen` wrote, for a board with one king of each colour. |
| FenRoundTrip.FieldsAccepted | next.lock/data/https_cdn.skypack.dev/monkfish_v0.1.15-qhtgsTUvoEkAVNoiasGl_dist_es2019_mode_imports_optimized_monkfish_77ae260e2c0e9879be63.js:1818-1892 | `parseFen` accepts every FEN `stateToFen` writes for a well-formed position (counters below 2^53) whose castling text the chosen test passes, and returns its six fields. |
| FenRoundTrip.FenRoundTrip | next.lock/data/https_cdn.skypack.dev/monkfish_v0.1.15-qhtgsTUvoEkAVNoiasGl_dist_es2019_mode_imports_optimized_monkfish_77ae260e2c0e9879be63.js:1861-1892 | Writing a canonical position (not holding the lone right "q", counters below 2^53) and reading it back with the engine's reader gives the same position. |
| FenRoundTrip.FenRoundTripCorrected | next.lock/data/https_cdn.skypack.dev/monkfish_v0.1.15-qhtgsTUvoEkAVNoiasGl_dist_es2019_mode_imports_optimized_monkfish_77ae260e2c0e9879be63.js:1836-1892 | With the castling test corrected, every well-formed position (counters below 2^53), the lone right "q" included, reads back as itself. |
| FenRoundTrip.WrittenRejectsOwnQ | next.lock/data/https_cdn.skypack.dev/monkfish_v0.1.15-qhtgsTUvoEkAVNoiasGl_dist_es2019_mode_imports_optimized_monkfish_77ae260e2c0e9879be63.js:1836-1839 | With the test as written, the FEN the engine writes for a well-formed position holding only the right "q" is rejected with "invalid castling", by `parseFen` and `fenToState` alike. |
| FenRoundTrip.CastlingTextAccepted | next.lock/data/https_cdn.skypack.dev/monkfish_v0.1.15-qhtgsTUvoEkAVNoiasGl_dist_es2019_mode_imports_optimized_monkfish_77ae260e2c0e9879be63.js:1836-1839 | The castling text `stateToFen` writes contains no space, and passes the chosen castling test exactly when that test can read the position's rights. |
| FenRoundTrip.BoardRows | next.lock/data/https_cdn.skypack.dev/monkfish_v0.1.15-qhtgsTUvoEkAVNoiasGl_dist_es2019_mode_imports_optimized_monkfish_77ae260e2c0e9879be63.js:1798-1817 | The text `boardToFen` writes splits at '/' into the eight rank texts, eighth rank first, and each rank text reads back as that rank's eight cells. |
| FenRoundTrip.FieldsSplit | next.lock/data/https_cdn.skypack.dev/monkfish_v0.1.15-qhtgsTUvoEkAVNoiasGl_dist_es2019_mode_imports_optimized_monkfish_77ae260e2c0e9879be63.js:1884-1892 | The FEN `stateToFen` writes for a well-formed position (counters below 2^53) splits at spaces into exactly its six fields, and the placement, side, en-passant and counter fields pass their `parseFen` patterns. |
| Text.DecimalRoundTrip | next.lock/data/https_cdn.skypack.dev/monkfish_v0.1.15-qhtgsTUvoEkAVNoiasGl_dist_es2019_mode_imports_optimized_monkfish_77ae260e2c0e9879be63.js:1862-1892 | A counter is printed with digits only, and reading the digits back gives the counter. |
| Text.ExactDecimalShort | next.lock/data/https_cdn.skypack.dev/monkfish_v0.1.15-qhtgsTUvoEkAVNoiasGl_dist_es2019_mode_imports_optimized_monkfish_77ae260e2c0e9879be63.js:1884-1891 | A counter below 2^53 prints in at most 16 digits, below the 22 digits from which a template literal switches to the exponent form, so the plain digits modelled are what is printed. |
| Text.SplitJoin | next.lock/data/https_cdn.skypack.dev/monkfish_v0.1.15-qhtgsTUvoEkAVNoiasGl_dist_es2019_mode_imports_optimized_monkfish_77ae260e2c0e9879be63.js:1746-1817 | Splitting a join on a separator no part contains gives back the parts. |
| Text.Trim | next.lock/data/https_cdn.skypack.dev/cm-chessboard_v3.15.1-pOq1RDZm4zQv5hspLllQ_dist_es2019_mode_imports_optimized_cm-chessboard_ceb32b9e7826cd44a744.js:984 | The result is a slice of the text with only white space before and after it, and has no white space at either end; text with none at either end is unchanged. |
| BoardState.SetPiece | next.lock/data/https_cdn.skypack.dev/cm-chessboard_v3.15.1-pOq1RDZm4zQv5hspLllQ_dist_es2019_mode_imports_optimized_cm-chessboard_ceb32b9e7826cd44a744.js:956-958 | `setPiece` writes the square at an on-board index and no other, and leaves the markers alone. |
| BoardState.AddMarker | next.lock/data/https_cdn.skypack.dev/cm-chessboard_v3.15.1-pOq1RDZm4zQv5hspLllQ_dist_es2019_mode_imports_optimized_cm-chessboard_ceb32b9e7826cd44a744.js:959-961 | `addMarker` appends one marker and keeps the ones before it. |
| BoardState.KeptMarkers | next.lock/data/https_cdn.skypack.dev/cm-chessboard_v3.15.1-pOq1RDZm4zQv5hspLllQ_dist_es2019_mode_imports_optimized_cm-chessboard_ceb32b9e7826cd44a744.js:965-980 | A marker is kept exactly when it was there and the filter keeps it. |
| BoardState.RemoveMarkers | next.lock/data/https_cdn.skypack.dev/cm-chessboard_v3.15.1-pOq1RDZm4zQv5hspLllQ_dist_es2019_mode_imports_optimized_cm-chessboard_ceb32b9e7826cd44a744.js:962-981 | With neither argument every marker goes; otherwise exactly the markers the filter keeps stay; the squares do not change. |
| BoardState.SetPosition | next.lock/data/https_cdn.skypack.dev/cm-chessboard_v3.15.1-pOq1RDZm4zQv5hspLllQ_dist_es2019_mode_imports_optimized_cm-chessboard_ceb32b9e7826cd44a744.js:982-1005 | An empty FEN changes nothing; the call fails exactly when a non-empty FEN has fewer than eight fields; otherwise it keeps the markers and fills every square with nothing or a name starting with "w" or "b". |
| BoardState.SquareToIndex | next.lock/data/https_cdn.skypack.dev/cm-chessboard_v3.15.1-pOq1RDZm4zQv5hspLllQ_dist_es2019_mode_imports_optimized_cm-chessboard_ceb32b9e7826cd44a744.js:1038-1042 | A well-formed square name gives an index in 0..63 whose file and rank are the name's letter and digit. |
| BoardStateFacts.RemoveKindOnly | next.lock/data/https_cdn.skypack.dev/cm-chessboard_v3.15.1-pOq1RDZm4zQv5hspLllQ_dist_es2019_mode_imports_optimized_cm-chessboard_ceb32b9e7826cd44a744.js:962-981 | Removing by type alone drops exactly the markers of that type and the markers with neither index nor type, keeping the order of the rest. |
| BoardStateFacts.ReadingsAgree | next.lock/data/https_cdn.skypack.dev/cm-chessboard_v3.15.1-pOq1RDZm4zQv5hspLllQ_dist_es2019_mode_imports_optimized_cm-chessboard_ceb32b9e7826cd44a744.js:962-981 | For any index but 0, reading the index through truthiness and reading it as given keep the same markers. |
| BoardStateFacts.AddThenRemove | next.lock/data/https_cdn.skypack.dev/cm-chessboard_v3.15.1-pOq1RDZm4zQv5hspLllQ_dist_es2019_mode_imports_optimized_cm-chessboard_ceb32b9e7826cd44a744.js:959-981 | Adding a typed marker on a square and removing that square and type leaves no such marker. |
| BoardStateFacts.RemoveAtZeroAsWritten | next.lock/data/https_cdn.skypack.dev/cm-chessboard_v3.15.1-pOq1RDZm4zQv5hspLllQ_dist_es2019_mode_imports_optimized_cm-chessboard_ceb32b9e7826cd44a744.js:963 | As written, removing the markers of square 0 with no type removes every marker, including one on square 5. |
| BoardStateFacts.RemoveAtSquareOnly | next.lock/data/https_cdn.skypack.dev/cm-chessboard_v3.15.1-pOq1RDZm4zQv5hspLllQ_dist_es2019_mode_imports_optimized_cm-chessboard_ceb32b9e7826cd44a744.js:962-981 | Read as intended, removing the markers of a square keeps every marker that sits on another square. |
| BoardStateFacts.RankRoundTrip | next.lock/data/https_cdn.skypack.dev/cm-chessboard_v3.15.1-pOq1RDZm4zQv5hspLllQ_dist_es2019_mode_imports_optimized_cm-chessboard_ceb32b9e7826cd44a744.js:982-1037 | A canonical rank read into squares and written back gives the same text. |
| BoardStateFacts.PlacementRoundTrip | next.lock/data/https_cdn.skypack.dev/cm-chessboard_v3.15.1-pOq1RDZm4zQv5hspLllQ_dist_es2019_mode_imports_optimized_cm-chessboard_ceb32b9e7826cd44a744.js:982-1037 | Setting a placement field of eight canonical ranks succeeds, and reading the position back gives the same text. |
| BoardStateFacts.WrittenRanks | next.lock/data/https_cdn.skypack.dev/cm-chessboard_v3.15.1-pOq1RDZm4zQv5hspLllQ_dist_es2019_mode_imports_optimized_cm-chessboard_ceb32b9e7826cd44a744.js:1006-1037 | `getPosition` of the squares written from eight canonical ranks is those ranks, eighth first, joined with '/'. |
| BoardStateFacts.CellsRoundTrip | next.lock/data/https_cdn.skypack.dev/cm-chessboard_v3.15.1-pOq1RDZm4zQv5hspLllQ_dist_es2019_mode_imports_optimized_cm-chessboard_ceb32b9e7826cd44a744.js:982-1037 | Eight canonical squares written as a rank and read back give the same squares. |
| BoardStateFacts.SquaresRoundTrip | next.lock/data/https_cdn.skypack.dev/cm-chessboard_v3.15.1-pOq1RDZm4zQv5hspLllQ_dist_es2019_mode_imports_optimized_cm-chessboard_ceb32b9e7826cd44a744.js:982-1037 | Writing canonical squares with `getPosition` and reading them back with `setPosition` gives the same squares and keeps the markers. |
| BoardStateFacts.SquareNamesSpelled | next.lock/data/https_cdn.skypack.dev/cm-chessboard_v3.15.1-pOq1RDZm4zQv5hspLllQ_dist_es2019_mode_imports_optimized_cm-chessboard_ceb32b9e7826cd44a744.js:476-541 | The table's entry for square i is the file letter of i % 8 followed by the rank digit of i / 8. |
| BoardStateFacts.NameToIndex | next.lock/data/https_cdn.skypack.dev/cm-chessboard_v3.15.1-pOq1RDZm4zQv5hspLllQ_dist_es2019_mode_imports_optimized_cm-chessboard_ceb32b9e7826cd44a744.js:1038-1042 | `squareToIndex` of the table's name for square i is i. |
| BoardStateFacts.IndexToName | next.lock/data/https_cdn.skypack.dev/cm-chessboard_v3.15.1-pOq1RDZm4zQv5hspLllQ_dist_es2019_mode_imports_optimized_cm-chessboard_ceb32b9e7826cd44a744.js:1038-1042 | Every well-formed square name is the table's entry at the index `squareToIndex` gives. |
| PieceChanges.SquareDistance | next.lock/data/https_cdn.skypack.dev/cm-chessboard_v3.15.1-pOq1RDZm4zQv5hspLllQ_dist_es2019_mode_imports_optimized_cm-chessboard_ceb32b9e7826cd44a744.js:468-474 | The distance is the larger of the rank and the file difference. |
| PieceChanges.DistanceSymmetric | next.lock/data/https_cdn.skypack.dev/cm-chessboard_v3.15.1-pOq1RDZm4zQv5hspLllQ_dist_es2019_mode_imports_optimized_cm-chessboard_ceb32b9e7826cd44a744.js:468-474 | The distance does not depend on the order of the squares. |
| PieceChanges.DistanceZero | next.lock/data/https_cdn.skypack.dev/cm-chessboard_v3.15.1-pOq1RDZm4zQv5hspLllQ_dist_es2019_mode_imports_optimized_cm-chessboard_ceb32b9e7826cd44a744.js:468-474 | Two indices are at distance zero exactly when they are equal. |
| PieceChanges.DistanceOnBoard | next.lock/data/https_cdn.skypack.dev/cm-chessboard_v3.15.1-pOq1RDZm4zQv5hspLllQ_dist_es2019_mode_imports_optimized_cm-chessboard_ceb32b9e7826cd44a744.js:468-474 | No two board squares are more than seven steps apart, so the starting bound of 8 is beaten by any candidate. |
| PieceChanges.DistanceTriangle | next.lock/data/https_cdn.skypack.dev/cm-chessboard_v3.15.1-pOq1RDZm4zQv5hspLllQ_dist_es2019_mode_imports_optimized_cm-chessboard_ceb32b9e7826cd44a744.js:468-474 | The distance obeys the triangle inequality. |
| PieceChanges.Listed | next.lock/data/https_cdn.skypack.dev/cm-chessboard_v3.15.1-pOq1RDZm4zQv5hspLllQ_dist_es2019_mode_imports_optimized_cm-chessboard_ceb32b9e7826cd44a744.js:367-377 | The appeared and disappeared lists hold, in increasing index order, the squares that differ and hold a piece on the board listed, with that piece. |
| PieceChanges.Scan | next.lock/data/https_cdn.skypack.dev/cm-chessboard_v3.15.1-pOq1RDZm4zQv5hspLllQ_dist_es2019_mode_imports_optimized_cm-chessboard_ceb32b9e7826cd44a744.js:380-389 | The scan finds a same-piece entry at the shortest distance below 8, the first one on a tie, and finds nothing only when no same-piece entry is nearer than 8. |
| PieceChanges.ScanOnBoard | next.lock/data/https_cdn.skypack.dev/cm-chessboard_v3.15.1-pOq1RDZm4zQv5hspLllQ_dist_es2019_mode_imports_optimized_cm-chessboard_ceb32b9e7826cd44a744.js:380-389 | On the board the scan finds an entry exactly when some entry has the same piece. |
| PieceChanges.PairArrivals | next.lock/data/https_cdn.skypack.dev/cm-chessboard_v3.15.1-pOq1RDZm4zQv5hspLllQ_dist_es2019_mode_imports_optimized_cm-chessboard_ceb32b9e7826cd44a744.js:378-402 | Each appeared entry becomes exactly one change, in order, that brings its piece to its square. |
| PieceChanges.PairDepartures | next.lock/data/https_cdn.skypack.dev/cm-chessboard_v3.15.1-pOq1RDZm4zQv5hspLllQ_dist_es2019_mode_imports_optimized_cm-chessboard_ceb32b9e7826cd44a744.js:378-402 | Each disappeared entry is either the origin of exactly one move or left over. |
| PieceChanges.PairMoves | next.lock/data/https_cdn.skypack.dev/cm-chessboard_v3.15.1-pOq1RDZm4zQv5hspLllQ_dist_es2019_mode_imports_optimized_cm-chessboard_ceb32b9e7826cd44a744.js:378-402 | The pairing loop only moves and makes appear; a move goes from a disappeared entry to an appeared entry with the same piece. |
| PieceChanges.SeekChanges | next.lock/data/https_cdn.skypack.dev/cm-chessboard_v3.15.1-pOq1RDZm4zQv5hspLllQ_dist_es2019_mode_imports_optimized_cm-chessboard_ceb32b9e7826cd44a744.js:365-407 | The arrivals of the changes are the appeared list; the departures are a permutation of the disappeared list; disappearances come last; a move carries one piece from an old square to a different new square. |
| PieceChanges.ArrivalsAt | next.lock/data/https_cdn.skypack.dev/cm-chessboard_v3.15.1-pOq1RDZm4zQv5hspLllQ_dist_es2019_mode_imports_optimized_cm-chessboard_ceb32b9e7826cd44a744.js:365-407 | Exactly one change brings a piece to a square that changed and is now occupied, and no change brings anything elsewhere. |
| PieceChanges.DeparturesAt | next.lock/data/https_cdn.skypack.dev/cm-chessboard_v3.15.1-pOq1RDZm4zQv5hspLllQ_dist_es2019_mode_imports_optimized_cm-chessboard_ceb32b9e7826cd44a744.js:365-407 | Exactly one change takes the piece off a square that changed and was occupied, and no change takes anything elsewhere. |
| PieceChanges.UnchangedSquareQuiet | next.lock/data/https_cdn.skypack.dev/cm-chessboard_v3.15.1-pOq1RDZm4zQv5hspLllQ_dist_es2019_mode_imports_optimized_cm-chessboard_ceb32b9e7826cd44a744.js:365-407 | A square that holds the same on both boards takes part in no change. |

## Left out

- `printBoard` writes to the console and is not modelled.
- The bundler's private-field and class helpers are not modelled. They only hold the position and history that `Game` holds here.
- `isBoardPositionNotationMove` tells a move record from a notation request at run time. Here the two are different types with different operations, `Engine.MakeMove` and `Engine.MoveByNotation`.
- The `typeof` test of `parseFen` ("FEN must be a string") is not modelled, because the argument is a string by type.
- The game object is mutated by the search and then restored by `undo`. Here the search plays moves on immutable values; `Engine.TryMove` and `Engine.UndoAfterMove` show that playing and then undoing a move restores the game.
- A fractional search depth is not modelled. The depth is an integer; `Search` treats every depth below 1 alike, as the code's `depth < 1` test does.
- `NaN` from `Number` or `boardPositionNotationToSquare` is modelled as `None`. Every use in the code treats it like a missing value.
- `Safety.LegalKeepsSettled`, `Safety.SearchSucceeds` and `Safety.BestMoveFound` assume a settled position: a sound one whose side not to move is not in check. A position loaded from FEN is only proved consistent (`FenFacts.FenStateConsistent`), because the FEN reader does not check the castling rights, the en-passant square or the check status.
- `Engine.Load` keeps the history, as the code does, so `undo` after `load` returns to a position saved before the load.
- Engine.MovesForPosition: the exact report of the legal moves from the square is proved for consistent positions only; for other positions only the empty report of an unreadable square is stated.
- Engine.FenThenLoad and FenRoundTrip.FenRoundTrip do not cover a position whose only castling right is "q", because the engine's reader rejects the FEN written for it (see Findings). `FenRoundTrip.FenRoundTripCorrected` covers it for the corrected reader.
- Engine.MakeMove: its own contract states only that one position is saved; what is saved and the change of side are stated by `Engine.MoveSavesPosition`, and what the move does to the position by the lemmas of `Invariants`.
- Engine.InsufficientPieces: the lemmas cover king against king, a single extra bishop or knight, and any pawn, rook or queen. The case of one bishop on each side, compared by the shade of the first bishop found of each colour, is left to the definition.
- Fen.FenToState: the counters are read as exact integers. JavaScript's `Number` rounds an integer above 2^53 to the nearest double, which is not modelled.
- Text.DecimalRoundTrip and Text.Decimal: every integer is printed in plain digits. From 10^21 on, JavaScript's template literal prints an exponent form such as "1e+21", which the counter pattern of `parseFen` rejects. The FEN round trips (`FenRoundTrip.FenRoundTrip`, `FenRoundTrip.FenRoundTripCorrected`, `FenRoundTrip.FieldsAccepted`, `FenRoundTrip.FieldsSplit`, `Engine.FenThenLoad`) are therefore stated for counters below 2^53 only, the bound in `FenRoundTrip.WellFormed`.
- Everything the widget draws: the SVG view, animation, input handling, orientation and extension hooks. Only `ChessboardState`, `seekChanges`, `squareDistance` and `SQUARE_COORDINATES` are modelled.
- Marker types are objects compared by identity. They are modelled as natural-number identities, so every given type is truthy.
- `BoardState.SetPiece`: a write at an index off the board grows the JavaScript array. Here it is dropped, because no reader looks past square 63.
- `BoardState.SetPosition`: `toUpperCase` and `toLowerCase` are modelled on ASCII letters only. Other characters are left unchanged, and the full Unicode case mapping is not modelled.
- `BoardState.SetPosition` states the shape of the squares it writes. Their contents are stated by `BoardStateFacts.SquaresRoundTrip` and `BoardStateFacts.PlacementRoundTrip`, for canonical text only. Text with a digit above 8, a rank longer than eight squares or a non-piece letter is not characterised beyond that shape.
- `BoardState.SquareToIndex` is characterised for well-formed names. Other names give whatever the arithmetic gives, as in the code, with `NaN` as `None`.
- `MoveGen.PawnStep` and the other generators carry only small contracts. Their content is stated by the lemmas of `GeneratorFacts`.

## Findings

| source | as written | input that shows it | evidently intended | confidence | as-written member | corrected member |
|---|---|---|---|---|---|---|
| next.lock/data/https_cdn.skypack.dev/monkfish_v0.1.15-qhtgsTUvoEkAVNoiasGl_dist_es2019_mode_imports_optimized_monkfish_77ae260e2c0e9879be63.js:1836-1839 | the castling test `/^-\|K\|Q\|k\|q\w+$/` matches a field that starts with "-", contains "K", "Q" or "k" anywhere, or has a "q" followed by one or more word characters up to the end; a field whose only letter is "q" matches none of these | the castling field `q` (black may castle queen-side only) | every field of one or more of the letters `KQkq`, and `-`, is accepted | not executed | Fen.ParseFen and Fen.FenToState read with `Written` (Fen.CastlingFieldAsWritten), which the engine uses; FenRoundTrip.WrittenRejectsOwnQ shows the engine rejecting the FEN it writes itself for that position, and FenFacts.CastlingAsWrittenRejectsOnlyQ that "q" is the only well-formed field rejected | Fen.ParseFen and Fen.FenToState read with `Corrected` (Fen.CastlingFieldOk); FenRoundTrip.FenRoundTripCorrected proves every well-formed position reads back as itself |
| next.lock/data/https_cdn.skypack.dev/cm-chessboard_v3.15.1-pOq1RDZm4zQv5hspLllQ_dist_es2019_mode_imports_optimized_cm-chessboard_ceb32b9e7826cd44a744.js:962-981 | `removeMarkers` tests `!index`, so square 0 (a1) reads as no square | `removeMarkers(0)` with a typed marker on square 5 removes that marker too | only the markers on a1 are removed | not executed | BoardState.RemoveMarkers read `AsWritten`, shown by BoardStateFacts.RemoveAtZeroAsWritten | BoardState.RemoveMarkers read `Intended`; BoardStateFacts.RemoveAtSquareOnly proves markers on other squares stay, and BoardStateFacts.ReadingsAgree that the readings differ only at square 0 |
