# NEA chess engine: a verified model of its core

This project models the core of a bitboard chess engine written in C++
(NikitaSaitov/NEA-project) and proves properties of that model. The core has
five layers:

- **Bit primitives** (bitboard_operations.h): `setBit`, `popBit`, `getBit`,
  `getPopulationCount` and `getLS1BIndex` on 64-bit boards (`bv64`). A board
  is read through `Squares(b)`, the set of its squares.
- **Moves and move lists** (move_encoding.h, MoveList.*): the 24-bit move code
  with its getters, and the append-only 256-slot list, a class over an array.
- **Attack generation and magic hashing** (magic_bitboards.cpp,
  AttackTable.*):
  - leaper masks and relevant slider masks;
  - ray-cast slider attacks;
  - the blocker-variation enumerator;
  - the collision test of `findMagicNumber`;
  - the `AttackTable` class with its initialisation and lookups.
  - The main theorem: a lookup through a found magic returns the ray-cast
    attacks of the full occupancy.
- **Board** (main.cpp, class `Board`):
  - occupancy derivation, `isSquareAttacked` and `isKingInCheck`;
  - `generateHash` and `staticEvaluate`;
  - pseudo-legal move generation (`generateMoves`, `PickNameYourself1`,
    `SmthAboutPawns`);
  - `makeMove` with its snapshot, legality gate and incremental hash.
- **Search** (main.cpp, class `Position`):
  - `perft`;
  - `scoreMove` with `merge`/`mergeSort`/`sortMoves`;
  - `setPVScore`;
  - fail-hard `quiescence`;
  - `negamax` with its killer and principal-variation bookkeeping;
  - `resetSearchVariables`.

Each loop of the source is a `method` with invariants, proved against a
specification function. The stateful classes (`MoveList`, `AttackTable`,
`Board`, `Position`) are Dafny classes over arrays and fields. The
specification functions carry the proved properties: the move codec round
trip, generator soundness and completeness, the `makeMove` gate and hash, the
sort's permutation and order, and the search values.

The constants of const.h and enum.h are not part of this model: the engine's
tables are parameters, and their assumed shapes are stated as predicates.

## Model

Every loop body and step method that carries a contract has its own row, next to the row of the operation it belongs to. Helper lemmas about bit-vector arithmetic, the XOR laws and list bookkeeping serve the proofs only and have no row.

| member | source | states |
|---|---|---|
| Bitboards.SetBit | bitboard_operations.h:9-12 | the result holds the squares of the board plus s: bit s is set and no other bit changes |
| Bitboards.PopBit | bitboard_operations.h:14-17 | the result holds the squares of the board minus s, and is the board itself when s was clear (a no-op) |
| Bitboards.GetBit | bitboard_operations.h:19-22 | the answer is 0 or 1, and it is 1 exactly when square s is set |
| Bitboards.ClearLowest | bitboard_operations.h:30 | `b & (b - 1)` removes exactly the lowest set square, so the popcount loop terminates |
| Bitboards.GetPopulationCount | bitboard_operations.h:24-33 | the loop returns the number of set squares |
| Bitboards.IsolateLowest | bitboard_operations.h:39 | `b & -b` is the one-square board of the lowest set square |
| Bitboards.BelowLowest | bitboard_operations.h:39 | `(b & -b) - 1` holds exactly the squares below the lowest set square |
| Bitboards.LowestSquare | bitboard_operations.h:35-40 | on a non-empty board: a set square with no set square below it |
| Bitboards.GetLS1BIndex | bitboard_operations.h:35-44 | a non-empty board gives its lowest set square; an empty board gives the LSBOfEmptyBitboard failure instead of a sentinel |
| Bitboards.SquaresOr | bitboard_operations.h:11 | the squares of `a \| c` are the union of the squares of a and c |
| Bitboards.SquaresXor | bitboard_operations.h:16 | the squares of `a ^ c` are the symmetric difference |
| Bitboards.Extensionality | bitboard_operations.h:7 | two boards that hold the same squares are the same word |
| MoveEncoding.CreateMove | move_encoding.h:8-11 | every getter reads back the field it was given, and the code is below 2^24 |
| MoveEncoding.GetStartSquareIndex | move_encoding.h:13-16 | the start field is a square 0..63 |
| MoveEncoding.GetTargetSquareIndex | move_encoding.h:18-21 | the target field is a square 0..63 |
| MoveEncoding.GetPiece | move_encoding.h:23-26 | the piece field is below 16 |
| MoveEncoding.GetPromotedPiece | move_encoding.h:28-31 | the promotion field is below 16 |
| MoveEncoding.PackCapture | move_encoding.h:33-36 | isCapture reads back the capture flag that was packed |
| MoveEncoding.PackDoublePush | move_encoding.h:38-41 | isDoublePawnPush reads back the double-push flag |
| MoveEncoding.PackEnPassant | move_encoding.h:43-46 | isEnPassant reads back the en-passant flag |
| MoveEncoding.PackCastling | move_encoding.h:48-51 | isCastling reads back the castling flag |
| MoveEncoding.DecodeRoundTrip | move_encoding.h:8-51 | every code below 2^24 is the move its own decoded fields build: decoding loses nothing |
| MoveEncoding.CreateMoveInjective | move_encoding.h:8-11 | two moves built from different in-range fields are different codes |
| MoveLists.MoveList.constructor | MoveList.h:5-10 | a new list is empty over a fresh 256-slot buffer |
| MoveLists.MoveList.Contents | MoveList.h:5-6 | the listed moves are the first `count` slots |
| MoveLists.MoveList.AppendMove | MoveList.cpp:4-8 | the list becomes the old list plus createMove of the arguments: count grows by one, the earlier entries stay, and the new entry decodes to the arguments |
| MoveLists.MoveList.GetMoves | MoveList.cpp:10-13 | the answer is the 256-slot buffer itself, not a copy |
| MoveLists.MoveList.GetCount | MoveList.cpp:15-18 | the answer is the number of appended moves, at most 256, and nothing changes |
| Geometry.PawnAttackCount | magic_bitboards.cpp:10-38 | a pawn attacks at most two squares |
| Geometry.PawnAttackMirror | magic_bitboards.cpp:10-38 | a white pawn on s attacks t exactly when a black pawn on t attacks s |
| Geometry.KnightAttackMembers | magic_bitboards.cpp:40-70 | the knight's targets are exactly the on-board squares a (1, 2) or (2, 1) jump away, with no wrap across files |
| Geometry.KingAttackMembers | magic_bitboards.cpp:120-146 | the king's targets are exactly the on-board neighbours of its square, never the square itself |
| Geometry.SliderRelevant | magic_bitboards.cpp:72-118 | slider attacks depend on the occupancy of the relevant mask only |
| Geometry.SliderNonEmpty | magic_bitboards.cpp:148-218 | ray-cast attacks are never empty, so 0 can mark an empty slot in the magic test |
| Geometry.SliderRays | magic_bitboards.cpp:148-218 | every attacked square lies on one of the slider's four rays |
| Geometry.SliderSymmetric | magic_bitboards.cpp:148-218 | a slider on s attacks t exactly when the same slider on t attacks s |
| Geometry.KnightSymmetric | magic_bitboards.cpp:40-70 | knights attack symmetrically |
| Geometry.KingSymmetric | magic_bitboards.cpp:120-146 | kings attack symmetrically |
| Geometry.MaskRayMembers | magic_bitboards.cpp:81-92 | every square a mask loop walks is a board square along its walk, with neither walked coordinate at the edge the loop stops before |
| Geometry.MaskRayHas | magic_bitboards.cpp:81-92 | conversely, every board square along the walk that is short of that edge is a mask square |
| Geometry.BishopMaskMembers | magic_bitboards.cpp:72-94 | t is a relevant bishop square of s exactly when t is on a diagonal of s, t is not s, and t is on ranks 1-6 and files 1-6 |
| Geometry.RookMaskMembers | magic_bitboards.cpp:96-118 | t is a relevant rook square of s exactly when t is not s and shares s's file with rank 1-6 or s's rank with file 1-6 |
| Geometry.SliderMaskInAttacks | magic_bitboards.cpp:72-118 | every relevant square, bishop or rook, is one the slider attacks on an empty board |
| LeaperMasks.MaskPawnAttacks | magic_bitboards.cpp:10-38 | the mask holds exactly the squares a pawn of that side attacks: the two forward diagonals, with no wrap across the a and h files |
| LeaperMasks.MaskKnightAttacks | magic_bitboards.cpp:40-70 | the mask holds exactly the knight's targets |
| LeaperMasks.MaskKingAttacks | magic_bitboards.cpp:120-146 | the mask holds exactly the king's targets |
| LeaperMasks.OrShiftedRight | magic_bitboards.cpp:19-24 | a guarded `attacks \|= piece >> n` adds exactly the square dr ranks and df files away, and nothing when that square is off the board |
| LeaperMasks.OrShiftedLeft | magic_bitboards.cpp:29-34 | the same for `attacks \|= piece << n` |
| SliderAttacks.MaskBishopAttacks | magic_bitboards.cpp:72-94 | the mask is BishopMaskSet: t is in it exactly when t lies on one of the square's diagonals, is not the square itself, and is on ranks 1-6 and files 1-6 (BishopRelevant) |
| SliderAttacks.MaskRookAttacks | magic_bitboards.cpp:96-118 | the mask is RookMaskSet: t is in it exactly when t shares the square's file with rank 1-6 or its rank with file 1-6, and is not the square itself, so the far square of each ray is left out (RookRelevant) |
| SliderAttacks.MaskSouthEast | magic_bitboards.cpp:81-83 | the loop adds the mask squares of its diagonal |
| SliderAttacks.MaskNorthEast | magic_bitboards.cpp:84-86 | the loop adds the mask squares of its diagonal |
| SliderAttacks.MaskSouthWest | magic_bitboards.cpp:87-89 | the loop adds the mask squares of its diagonal |
| SliderAttacks.MaskNorthWest | magic_bitboards.cpp:90-92 | the loop adds the mask squares of its diagonal |
| SliderAttacks.MaskSouth | magic_bitboards.cpp:105-107 | the loop adds the mask squares of its file |
| SliderAttacks.MaskNorth | magic_bitboards.cpp:108-110 | the loop adds the mask squares of its file |
| SliderAttacks.MaskEast | magic_bitboards.cpp:111-113 | the loop adds the mask squares of its rank |
| SliderAttacks.MaskWest | magic_bitboards.cpp:114-116 | the loop adds the mask squares of its rank |
| SliderAttacks.MaskDiagonalStep | magic_bitboards.cpp:81-92 | one setBit of a diagonal mask loop: the squares set so far plus the rest of the walk stay the loop's target |
| SliderAttacks.MaskFileStep | magic_bitboards.cpp:105-110 | the same for the file loops of maskRookAttacks |
| SliderAttacks.MaskRankStep | magic_bitboards.cpp:111-116 | the same for the rank loops of maskRookAttacks |
| SliderAttacks.GenerateBishopAttacks | magic_bitboards.cpp:148-182 | the result is each diagonal ray up to and including its first occupied square, and nothing beyond |
| SliderAttacks.GenerateRookAttacks | magic_bitboards.cpp:184-218 | the result is each straight ray up to and including its first occupied square, and nothing beyond |
| SliderAttacks.RaySouthEast | magic_bitboards.cpp:157-162 | the loop adds its ray up to the first blocker |
| SliderAttacks.RayNorthEast | magic_bitboards.cpp:163-168 | the loop adds its ray up to the first blocker |
| SliderAttacks.RaySouthWest | magic_bitboards.cpp:169-174 | the loop adds its ray up to the first blocker |
| SliderAttacks.RayNorthWest | magic_bitboards.cpp:175-180 | the loop adds its ray up to the first blocker |
| SliderAttacks.RaySouth | magic_bitboards.cpp:193-198 | the loop adds its ray up to the first blocker |
| SliderAttacks.RayNorth | magic_bitboards.cpp:199-204 | the loop adds its ray up to the first blocker |
| SliderAttacks.RayEast | magic_bitboards.cpp:205-210 | the loop adds its ray up to the first blocker |
| SliderAttacks.RayWest | magic_bitboards.cpp:211-216 | the loop adds its ray up to the first blocker |
| SliderAttacks.CastDiagonalStep | magic_bitboards.cpp:157-180 | one setBit and blocker test of a diagonal loop: an occupied square ends the ray, otherwise the rest of the ray is still to come |
| SliderAttacks.CastFileStep | magic_bitboards.cpp:193-204 | the same for the file loops of generateRookAttacks |
| SliderAttacks.CastRankStep | magic_bitboards.cpp:205-216 | the same for the rank loops of generateRookAttacks |
| Occupancies.Occupancy | magic_bitboards.cpp:220-234 | the variation an index names lies within the mask |
| Occupancies.GenerateOccupancy | magic_bitboards.cpp:220-234 | it succeeds exactly when relevantBits is at most the mask's popcount (otherwise getLS1BIndex of the emptied mask throws); bit k of the index decides the k-th lowest mask square |
| Occupancies.OccupancyStep | magic_bitboards.cpp:226-231 | one round takes the lowest square left in the mask, failing exactly when the mask is empty, and sets it when bit currentBit of the index is set |
| Occupancies.IndexOfOccupancy | magic_bitboards.cpp:220-234 | every index below 2^n names a variation from which the index reads back |
| Occupancies.OccupancyOfIndex | magic_bitboards.cpp:220-234 | every subset of the mask is the variation its index names |
| Occupancies.OccupanciesDistinct | magic_bitboards.cpp:220-234 | distinct indices name distinct variations |
| MagicSearch.MaxOccupancyIndex | magic_bitboards.cpp:242 | `1 << relevantBits` is 2^relevantBits, within the 4096-entry buffers |
| MagicSearch.MagicIndex | magic_bitboards.cpp:268 | the slot `(occupancy * magic) >> (64 - n)` of a wrapping 64-bit product is below 2^n |
| MagicSearch.FillVariations | magic_bitboards.cpp:244-247 | the buffers hold, for every index, its variation and the ray-cast attacks it leaves; the fill fails exactly when the mask is too small |
| MagicSearch.TabulateEntry | magic_bitboards.cpp:245-246 | entry index holds its variation and the ray-cast attacks it leaves, and fails exactly when the mask is too small |
| MagicSearch.TabulatedNonZero | magic_bitboards.cpp:271 | every tabulated attack set is non-zero, so 0 marks an unused slot |
| MagicSearch.TestMagic | magic_bitboards.cpp:260-276 | the candidate passes exactly when no two variations with different attacks share a slot |
| MagicSearch.ClaimSlot | magic_bitboards.cpp:268-275 | one round of the test: a pass keeps every filled slot agreeing with all entries so far, and a failure means two entries with different attacks share a slot |
| MagicSearch.CollisionFreeSeparates | magic_bitboards.cpp:260-276 | on filled buffers the array test decides exactly whether the magic separates the variations |
| MagicSearch.TryCandidate | magic_bitboards.cpp:254-280 | a candidate is accepted exactly when it passes the high-byte pre-check and the collision test |
| MagicSearch.SearchCandidates | magic_bitboards.cpp:252-283 | the answer is the first accepted draw, or failure when none of the 10^8 draws is accepted |
| MagicSearch.FindMagicNumber | magic_bitboards.cpp:236-285 | the mask-too-small failure happens exactly when relevantBits exceeds the mask; a success is the first accepted draw; otherwise CannotFindMagicNumber with no draw accepted |
| AttackTables.AttackTable.constructor | AttackTable.h:7-17 | fresh zero-filled tables of the source's sizes (2x64 pawn, 64x512 bishop, 64x4096 rook) |
| AttackTables.AttackTable.Initialize | AttackTable.h:25-31 | the constructor body in its order: magics, then leapers, then bishops, then rooks; on success the tables are ready, on failure CannotFindMagicNumber |
| AttackTables.AttackTable.FinishTables | AttackTable.h:28-30 | once the magics are found, the leaper and both slider tables are built |
| AttackTables.AttackTable.BuildTables | AttackTable.h:28-30 | the rest of the constructor body leaves the tables ready |
| AttackTables.AttackTable.BuildSliders | AttackTable.h:29-30 | both calls of initializeSlidingPieceTables leave the masks and both slider tables ready |
| AttackTables.AttackTable.InitializeMagicNumbers | AttackTable.cpp:9-15 | on success every square has its bishop and rook magic found by the search; the first failing search ends it |
| AttackTables.AttackTable.SearchSquare | AttackTable.cpp:12-13 | one square: on success its bishop and rook magics are found, and on failure the failing search's error is the answer |
| AttackTables.AttackTable.InitializeLeapingPieceTables | AttackTable.cpp:17-31 | it fails exactly when bishopMagics[0] or rookMagics[0] is 0, changing nothing; otherwise the leaper tables equal the leaper masks |
| AttackTables.AttackTable.StoreLeapers | AttackTable.cpp:25-28 | the four writes of one square leave the leaper tables right for every square up to it |
| AttackTables.AttackTable.InitializeSlidingPieceTables | AttackTable.cpp:33-63 | both masks of every square are stored, and every variation of the chosen slider's mask sits at its magic slot with its ray-cast attacks |
| AttackTables.AttackTable.SlidingStep | AttackTable.cpp:37-61 | one square: both masks stored, then its row of the chosen table filled |
| AttackTables.AttackTable.StoreMasks | AttackTable.cpp:37-38 | both relevant masks of s are computed and stored at s, and no other entry changes |
| AttackTables.AttackTable.FillSquare | AttackTable.cpp:45-60 | every variation of the square's mask sits at its magic slot with its ray-cast attacks |
| AttackTables.SliderLookup | AttackTable.cpp:77-91 | a row that stores every variation at its magic slot answers any occupancy with the ray-cast attacks of that occupancy |
| AttackTables.AttackTable.BishopLookup | AttackTable.cpp:77-83 | once built, getBishopAttacks is the bishop's ray-cast attacks for the whole occupancy |
| AttackTables.AttackTable.RookLookup | AttackTable.cpp:85-91 | once built, getRookAttacks is the rook's ray-cast attacks for the whole occupancy |
| AttackTables.AttackTable.QueenLookup | AttackTable.cpp:93-95 | getQueenAttacks is the union of both ray-casts |
| AttackTables.AttackTable.LeaperLookup | AttackTable.cpp:65-75 | once built, the pawn, knight and king lookups are the leaper attack sets |
| AttackTables.AttackTable.LookupMaskedOnly | AttackTable.cpp:79-81 | the slider lookups see only the occupied squares on the relevant mask |
| AttackTables.FirstAcceptedSeparates | magic_bitboards.cpp:265-280 | a magic the search returns separates its mask's variations and is not 0 |
| BoardStates.Occupancies | main.cpp:143-152 | three occupancies: white's, black's and both |
| BoardStates.SideOccupancy | main.cpp:143-152 | a side's derived occupancy holds exactly the squares of that side's six boards |
| BoardStates.SquareAttackedMeaning | main.cpp:76-100 | isSquareAttacked is true exactly when some piece of the side attacks the square; pawns are probed through the other colour's pawn table |
| BoardStates.KingInCheck | main.cpp:384-386 | it fails exactly when the mover has no king (getLS1BIndex throws) |
| BoardStates.KingInCheckMeaning | main.cpp:384-386 | in check means some enemy piece attacks the mover's lowest king square |
| Boards.PopulatedAfterReset | main.cpp:143-152 | after resetOcuupancies and populateOccupancies, white's occupancy is the union of boards 0-5, black's of boards 6-11, and both is their union |
| Boards.Board.Load | main.cpp:136-141 | the parsed pieces, side, rights and en-passant square are in place, with occupancies derived from the boards |
| Boards.Board.ResetOccupancies | main.cpp:72-74 | all three occupancies become 0 and nothing else changes |
| Boards.Board.PopulateOccupancies | main.cpp:143-152 | each side's occupancy is ORed with its boards and both becomes their union; nothing else changes |
| Boards.Board.OrIntoOccupancy | main.cpp:145-150 | occupancies[side] becomes its old value ORed with boards lo..hi-1, and nothing else changes |
| Boards.Board.GenerateHash | main.cpp:102-130 | ungenerated keys give HashKeysNotInitialized and change nothing; otherwise the hash word becomes the old word XOR the position's hash (it is never cleared) |
| Boards.Board.HashPieces | main.cpp:108-119 | the loop XORs in the key of every piece on every square |
| Boards.Board.HashPieceBoard | main.cpp:112-118 | the loop XORs in the key of every square of one piece board |
| Boards.Board.HashExtras | main.cpp:121-129 | the en-passant key when there is a square, the castling key, then the side key for black |
| Boards.GeneratedDrift | main.cpp:102-130 | after generateHash the word differs from the position's hash by exactly the old word (XOR), so only a word that was 0 ends up holding the hash itself |
| Boards.Board.StaticEvaluate | main.cpp:636-689 | the score is the material plus square bonus of every piece, from white's side, negated when black moves |
| Boards.Board.ScorePieceBoard | main.cpp:645-685 | the loop adds the material and square bonus of every piece on one board |
| Evaluations.SideRelative | main.cpp:687-688 | handing the move to the other side negates the evaluation |
| Evaluations.PlacePiece | main.cpp:641-686 | placing a piece on an empty square changes the white-relative score by exactly its material and square bonus |
| Evaluations.PiecesOnly | main.cpp:636-689 | the evaluation reads only the pieces and the side to move |
| Evaluations.QueensMaterialOnly | main.cpp:651-683 | queens score material only, wherever they stand |
| Boards.Board.SwitchSideToMove | main.cpp:388-390 | only the side to move flips |
| Boards.Board.ResetEnPassantSquareIndex | main.cpp:695-697 | only the en-passant square is cleared; the hash word is left alone |
| Boards.Board.IsKingInCheck | main.cpp:384-386 | the answer is KingInCheck of the current position |
| Boards.Board.CopyFrom | main.cpp:939 | `currentBoard = temporaryBoard`: every field takes the saved value |
| Boards.Board.MovePieceStep | main.cpp:404-408 | the piece leaves the start and appears on the target, with both keys XORed into the hash word |
| Boards.Board.CaptureStep | main.cpp:410-435 | the first enemy board holding the target loses it, and the loop stops |
| Boards.Board.PromoteStep | main.cpp:437-452 | the mover's pawn leaves the target and the promoted piece is set there |
| Boards.Board.EnPassantCaptureStep | main.cpp:454-466 | the enemy pawn behind the target is popped |
| Boards.Board.EnPassantUpdateStep | main.cpp:468-483 | the old en-passant key leaves, the square clears, and a double push sets the square behind the target with its key |
| Boards.Board.CastleRookStep | main.cpp:485-529 | the switch on the king's target moves the matching rook with both keys |
| Boards.Board.MoveRook | main.cpp:489-527 | one case of the switch: the rook leaves its home square for its castled square, with both keys |
| Boards.Board.CastlingRightsStep | main.cpp:531-536 | the castling key leaves, the rights are masked by both CASTLE_STATE entries, and the new key enters |
| Boards.Board.MovePieces | main.cpp:404-466 | the piece-moving statements: mover, capture loop, promotion and en passant, in the source's order |
| Boards.Board.PlayMove | main.cpp:392-539 | everything before the legality test, then the occupancies recomputed from scratch |
| Boards.Board.Settle | main.cpp:541-554 | no king: the failure, nothing changed; in check: the snapshot copied back and 0; otherwise the side flipped with its key and 1 |
| Boards.Board.Decide | main.cpp:541-554 | the same, with the check test read before the fields change |
| Boards.Board.Restore | main.cpp:543-546 | every field but the side to move and the hash word takes the snapshot's value |
| Boards.Board.MakeMove | main.cpp:392-555 | the new fields and the answer are those of MakeMoves.MakeMove on the old position |
| MakeMoves.Played | main.cpp:399-539 | after the steps the en-passant square is set only behind a double push, the rights only shrink, and the occupancies are the union of the boards |
| MakeMoves.MakeMove | main.cpp:392-555 | it fails exactly when the move leaves the mover with no king; otherwise it answers 0 or 1 |
| MakeMoves.MakeMoveRejects | main.cpp:541-549 | with a king, the move is rejected exactly when an enemy piece attacks it; a rejected move restores every field but the hash word, which keeps the move's XORs |
| MakeMoves.MakeMoveAccepts | main.cpp:531-554 | an accepted move flips the side, leaves an en-passant square only behind a double push, never grants a right, and keeps the occupancies derived; when every pop and set changed its bit, old^new hash word equals old^new position hash |
| MakeMoves.PlayedKeeps | main.cpp:392-539 | when every pop and set before the legality test changes its bit, the hash word's drift from the position hash is what it was before the move |
| Zobrist.BoardToggle | main.cpp:108-119 | setBit of an absent square and popBit of a present one each XOR that square's key into the board's hash |
| Zobrist.PiecesToggle | main.cpp:108-119 | placing piece p on an empty square s, or taking it off, XORs PIECE_KEYS[p][s] into the position hash |
| Zobrist.SameDrift | main.cpp:102-130 | two positions with the same drift have hash words that differ exactly as their position hashes do |
| MakeMoveExactness.GeneratedExact | main.cpp:404-536 | on a consistent position, every generated move is playable and every pop and set makeMove makes for it changes its bit, so popBit (bitboard_operations.h:14-17) never skips |
| MakeMoveExactness.GeneratedHashTracks | main.cpp:392-555 | on a consistent position, for every generated move makeMove accepts, old^new hash word equals old^new generateHash |
| MoveGeneration.AppendPromotions | main.cpp:245-271 | one move per promoted piece, from the side's knight to its queen |
| MoveGeneration.AppendPawnPushes | main.cpp:241-257 | the pawn's quiet moves: the promotions or the single push onto a free square, and the double push from the second rank |
| MoveGeneration.AppendPawnCaptures | main.cpp:259-277 | a capture per attacked opponent square, lowest first, with promotions from the seventh rank |
| MoveGeneration.PawnCaptureTargets | main.cpp:259 | the targets are the attacked squares that hold an opponent piece |
| MoveGeneration.AppendPawnStep | main.cpp:267-275 | one pawn move onto a target: the four promotions from the seventh rank, a single move otherwise |
| MoveGeneration.EnPassantAttacks | main.cpp:282-284 | the pawn's attacks met with the en-passant square are non-empty exactly when the pawn attacks it, and then their lowest square is that square |
| MoveGeneration.AppendEnPassant | main.cpp:279-287 | the en-passant capture when the pawn attacks the en-passant square |
| MoveGeneration.PawnMoves | main.cpp:227-290 | the moves of every pawn of the side, lowest start first |
| MoveGeneration.PawnMovesStep | main.cpp:238-289 | one pass: the lowest pawn emits its pushes, captures and en passant, and the board left has one pawn fewer |
| MoveGeneration.BoardPieceMoves | main.cpp:207-223 | each piece of the board emits its moves, lowest start first |
| MoveGeneration.PieceMoves | main.cpp:200-224 | only the mover's piece of the visited kind emits one move per attacked square not held by its own side, flagged as a capture exactly when the opponent holds it |
| MoveGeneration.PieceMovesStep | main.cpp:207-223 | one pass: the lowest piece emits its moves, and the board left has one piece fewer |
| MoveGeneration.LookupMoveTargets | main.cpp:209 | the targets are the table's attacks less the mover's own pieces |
| MoveGeneration.AppendTargets | main.cpp:211-221 | one move per target, lowest first, flagged as a capture exactly when an opponent piece is there |
| MoveGeneration.AppendCastleKingSide | main.cpp:315-360 | the king-side castle when the right is held, the two squares are empty and neither the king's nor the crossed square is attacked |
| MoveGeneration.AppendCastleQueenSide | main.cpp:315-360 | the queen-side castle when the right is held, three squares are empty and neither the king's nor the crossed square is attacked |
| MoveGeneration.NotAttacked | main.cpp:318 | the answer is that no enemy piece attacks the square |
| MoveGeneration.SpecialMoves | main.cpp:301-363 | the switch: the side's pawn moves on its pawn board and its castles on its king board |
| MoveGeneration.OwnPieceMoves | main.cpp:365-379 | of the five PickNameYourself1 calls only the one for the visited board's kind emits, and only for the mover |
| MoveGeneration.GenerateSection | main.cpp:296-380 | one iteration appends the visited board's section of Generated |
| MoveGeneration.GenerateMoves | main.cpp:292-382 | the fresh list holds exactly Generated, piece board by piece board from the white pawns to the black king |
| GeneratorProperties.GeneratedSound | main.cpp:292-382 | every generated move is sound: the mover's piece on the start, the target not own-occupied, the capture flag exactly when an opponent piece is there, promotions only from the seventh rank to knight..queen, and castles only with their conditions |
| GeneratorProperties.PieceMoveGenerated | main.cpp:200-224 | every knight..king move to an attacked square its side does not hold is generated, flagged as a capture exactly when the opponent holds it |
| GeneratorProperties.KingSideCastleGenerated | main.cpp:315-360 | the king-side castle is generated whenever its conditions hold |
| GeneratorProperties.QueenSideCastleGenerated | main.cpp:315-360 | the queen-side castle is generated whenever its conditions hold |
| GeneratorProperties.SinglePushGenerated | main.cpp:241-254 | the push onto the empty square ahead is generated: plain, or from the seventh rank each of the four promotions |
| GeneratorProperties.DoublePushGenerated | main.cpp:252-254 | the double push from the second rank over two empty squares is generated |
| GeneratorProperties.PawnCaptureGenerated | main.cpp:259-277 | the capture of every attacked opponent piece is generated: plain, or from the seventh rank each of the four promotions |
| GeneratorProperties.EnPassantGenerated | main.cpp:279-287 | the en-passant capture is generated when the pawn attacks the en-passant square |
| MoveOrdering.VictimFrom | main.cpp:826-832 | the victim is the first enemy piece whose board holds the target, or 0 when none does |
| MoveOrdering.ScoreTiers | main.cpp:802-848 | the PV move scores 20000, above every other move; then captures, the two killers and the history score |
| MoveOrdering.SortKeyIsScore | main.cpp:802-848 | on a move of one of the twelve pieces the sort key is scoreMove's score |
| MoveOrdering.MergePermutes | main.cpp:850-889 | the merge neither loses nor invents a move |
| MoveOrdering.MergeDescends | main.cpp:867-878 | merging two runs ordered by non-increasing score gives such a run |
| MoveOrdering.TiesTakeRight | main.cpp:869 | on equal scores the right run's move goes first, so the sort is not stable |
| MoveOrdering.SortPermutesAndDescends | main.cpp:850-904 | the sorted moves are a permutation of the input, ordered by non-increasing score |
| MoveOrdering.CopyRun | main.cpp:857-863 | a fresh array holding the run |
| MoveOrdering.Merge | main.cpp:850-889 | a[lo..hi] becomes the merge of its two runs; the rest of the array is unchanged |
| MoveOrdering.MergeRuns | main.cpp:867-888 | the three loops write the merge of the two runs into a[lo..], leaving the rest of the array unchanged |
| MoveOrdering.MergeHeads | main.cpp:867-878 | the greater head is placed while both runs last |
| MoveOrdering.LeftTail | main.cpp:880-883 | the rest of the left run is placed |
| MoveOrdering.RightTail | main.cpp:885-888 | the rest of the right run is placed |
| MoveOrdering.MergeSort | main.cpp:891-900 | a[lo..hi] becomes the sorted run (hence a descending permutation); the rest of the array is unchanged |
| SearchSpecs.MakeMoveIsVerdict | main.cpp:392-555 | once the tables are built, makeMove answers as its specification over attack sets |
| SearchSpecs.VerdictIgnoresHash | main.cpp:392-555 | makeMove decides the same way whatever the hash word holds |
| SearchSpecs.GeneratedPlayable | main.cpp:292-382 | every generated move meets what makeMove demands of a move |
| SearchSpecs.PlayIsMakeMove | main.cpp:392-555 | once the tables are built, the game's play answers as makeMove |
| SearchSpecs.KingInCheckIsInCheck | main.cpp:384-386 | once the tables are built, isKingInCheck answers InCheck |
| SearchSpecs.InCheckIgnoresHash | main.cpp:384-386 | the check test reads no hash word |
| SearchSpecs.PerftRun | main.cpp:732-754 | a successful perft leaves the position it started from, up to the hash word |
| SearchSpecs.PerftFailureSticks | main.cpp:741-745 | once a makeMove in the loop fails, the failure is perft's answer |
| SearchSpecs.PerftDepthOne | main.cpp:732-754 | perft(1) is the number of generated moves makeMove accepts |
| PerftCounts.PerftRunIgnoresHash | main.cpp:732-754 | two boards that differ only in the hash word give perft answers that succeed together and then count the same nodes |
| PerftCounts.PerftLoopIgnoresHash | main.cpp:742-752 | the same for perft's loop over a list of moves |
| PerftCounts.PerftStepIgnoresHash | main.cpp:744-751 | the same for one pass of the loop |
| PerftCounts.PerftLoopSums | main.cpp:742-752 | the loop, though it plays each move on the board the rejected moves before it left, counts perft(depth - 1) summed over the moves makeMove accepts on the starting position |
| PerftCounts.PerftSums | main.cpp:732-754 | perft(depth) for depth at least 1 is perft(depth - 1) summed over the generated moves makeMove accepts, and it fails exactly when that sum does |
| SearchValues.GeneratedIgnoresHash | main.cpp:292-382 | the generated list does not depend on the hash word |
| SearchValues.Clamp | main.cpp:911-951 | a fail-hard score lies in the window and is the value itself, or an edge the value lies beyond |
| SearchValues.BestMeaning | main.cpp:923-951 | the capture fold is the greatest of the static evaluation and the capture replies, and fails exactly when a reply fails |
| SearchValues.BestPermuted | main.cpp:921 | the order of the moves does not change the value |
| SearchValues.StandPat | main.cpp:909-917 | the static evaluation is a lower bound of the value |
| SearchValues.StandPatWindow | main.cpp:909-913 | an evaluation at or above beta makes the windowed value beta |
| SearchValues.RaisedWindow | main.cpp:915-951 | below beta, the loop's answer from alpha raised to the evaluation is the value pulled into [alpha, beta] |
| SearchValues.ClampNegated | main.cpp:937 | negating turns the child's window [-beta, -alpha] over into the parent's [alpha, beta] |
| SearchValues.ReplyAnswers | main.cpp:937-947 | when the child returns its value pulled into its window, the negated answer is the capture's value pulled into the parent's |
| NegamaxSpecs.NoneLegal | main.cpp:1078-1085 | a list of the generated moves has no legal move exactly when the position is stalled |
| NegamaxSpecs.StalledIgnoresHash | main.cpp:1078-1085 | mate and stalemate are decided alike whatever the hash word holds |
| NegamaxSpecs.LegalIgnoresHash | main.cpp:541-549 | whether makeMove accepts a move does not depend on the hash word |
| Positions.SplicePV | main.cpp:1064-1070 | the move heads row ply, the line one ply deeper follows it, pvLength[ply] takes its length, and every other row is unchanged |
| Positions.MakeMoveThrough | main.cpp:392-555 | makeMove's answer and the board it leaves are the game's play |
| Positions.GenerateThrough | main.cpp:292-382 | the fresh list holds the game's generated moves |
| Positions.CheckThrough | main.cpp:384-386 | the answer is the game's check test |
| Positions.ClearMoves | main.cpp:1104 | every entry of a move table is 0 |
| Positions.ClearScores | main.cpp:1105 | every entry of a score table is 0 |
| Positions.ClearLengths | main.cpp:1107 | every length is 0 |
| Positions.Position.constructor | main.cpp:727-730 | ply and the node count start at 0 on the given board |
| Positions.Position.Perft | main.cpp:732-754 | the answer and the board left are PerftRun's |
| Positions.Position.PerftMove | main.cpp:737-751 | one pass of the loop is PerftStep |
| Positions.Position.Play | main.cpp:746 | the answer and the board left are the game's play |
| Positions.Position.PerftBelow | main.cpp:750-751 | perft(depth - 1) of the new position is added to the count, then the saved board is copied back |
| Positions.Position.SetPVScore | main.cpp:788-800 | fPVFollow ends set exactly when the list holds the last PV's move at this ply, and fPVScore is then set too |
| Positions.Position.SortMoves | main.cpp:802-904 | the list becomes the merge sort of itself by scoreMove's score over the tables at this ply |
| Positions.Position.ScorePV | main.cpp:804-807 | fPVScore is cleared once the PV move is scored |
| Positions.Position.Quiescence | main.cpp:906-952 | the answer is the capture-search value pulled into [alpha, beta], the board is restored, and no table is written |
| Positions.Position.QuiescenceMoves | main.cpp:919-951 | generate, sort, then the loop: the answer lies in [alpha, beta] and the board is restored |
| Positions.Position.QuiescenceLoop | main.cpp:923-950 | the loop's answer is the capture fold's value pulled into the window, with the board restored |
| Positions.Position.QuiescencePass | main.cpp:925-948 | one pass: a capture is searched and answers its capture value pulled into the window, any other move is skipped |
| Positions.Position.QuiescenceReply | main.cpp:937-947 | the reply searched with the window turned over, then ply stepped back and the board copied back |
| Positions.Position.QuiescenceCapture | main.cpp:927-947 | one capture: copy, play, search the reply with the window negated and swapped, copy back |
| Positions.Position.Negamax | main.cpp:954-1088 | at depth 0 it is quiescence's value pulled into the window; from ply MAX_SEARCH_DEPTH on, the static evaluation; otherwise mate scores CHECKMATE + ply, stalemate scores STALEMATE, other answers lie in the window, and a score strictly inside it has recorded a legal PV move; the plies above keep their tables |
| Positions.Position.NegamaxNode | main.cpp:966-1087 | the counted node: check extension, null move, then the moves; the answer is NodeAnswer (mate, stalemate or in the window) and a score inside the window has recorded a PV move |
| Positions.Position.NegamaxMoves | main.cpp:991-1087 | the moves in search order, then the loop: a stalled position answers its terminal score, any other answer lies in the window |
| Positions.Position.NegamaxPass | main.cpp:1003-1044 | one pass: the move is scored exactly when makeMove accepts it, and the board is copied back |
| Positions.Position.NegamaxReply | main.cpp:1014-1044 | an accepted move: the search below it, then ply stepped back and the board copied back |
| Positions.Position.NegamaxLadder | main.cpp:1014-1040 | the full-window, reduced and re-search ladder ends on the same position at the same ply, leaves the plies above unchanged and keeps pvLength[ply] at least ply; it states no value |
| Positions.Position.NullMoveCut | main.cpp:976-989 | the pass with its reduced null-window search; the board and the plies above are restored |
| Positions.Position.OrderMoves | main.cpp:991-997 | the list holds exactly the generated moves, in search order |
| Positions.Position.NegamaxLoop | main.cpp:1001-1077 | a cut-off answers beta, storing a quiet move as the first killer and never a capture; a stalled position answers its terminal score |
| Positions.Position.NegamaxMove | main.cpp:1003-1075 | one move: rejected, searched below alpha, raising alpha with the PV recorded, or cutting off with the killer update |
| Positions.Position.StoreKiller | main.cpp:1048-1051 | the move becomes the first killer at this ply and the old first killer the second |
| Positions.Position.RecordPV | main.cpp:1062-1074 | the move heads this ply's PV, and at the root it becomes bestMove |
| Positions.Position.ResetSearchVariables | main.cpp:1101-1109 | bestMove, the node count and ply are 0, and every table is zeroed |
| SearchPlies.RowsOverflow | main.cpp:906-964 | as written (with scoreMove's killer reads at main.cpp:836), a search of depth MAX_SEARCH_DEPTH touches row MAX_SEARCH_DEPTH, and one quiescence capture from the last row reads one row past the tables |
| SearchPlies.RowsInTable | main.cpp:906-964 | in this model every row a line touches lies inside the tables |
| SearchPlies.RowsAgree | main.cpp:906-964 | for a line that ends inside the tables, the bound changes nothing |

## Left out

- Position.Quiescence / QValue: stands pat once ply reaches maxDepth. The source's quiescence has no ply bound and keeps searching captures past the end of the ply tables (see Findings), which the model cannot index.
- Positions.Position.SortMoves: the sort key is a snapshot of fPVScore taken when the sort begins. scoreMove clears the flag in the middle of a merge the first time it scores the PV move, so later comparisons of that move score it by its tier. For [pv (quiet, history 0), capture c1, capture c2] the source sorts [c2, pv, c1], while the model puts pv first.
- Positions.Position.Negamax: ChildLength stands in for the out-of-bounds read pvLength[MAX_SEARCH_DEPTH] at the last ply. Negamax skips `pvLength[ply] = ply` when ply == maxDepth, where the source writes past the table (see Findings).
- AttackTables.AttackTable.constructor: zero-fills the tables, and AttackTables.AttackTable.Initialize runs the constructor body as a separate call. The random draws of findMagicNumber are a parameter `candidates`, in place of rand() and seedRandom.
- AttackTables.AttackTable.Initialize: assumes RelevantBitsMatch, i.e. the const.h BISHOP_RELEVANT_BITS and ROOK_RELEVANT_BITS entries equal the popcount of each relevant mask. Those tables are not part of this model.
- Positions.Position.constructor: the const.h values are parameters: MAX_SEARCH_DEPTH, CHECKMATE_SCORE, STALEMATE_SCORE, REDUCTION_LIMIT, FULL_DEPTH_MOVES, MVV_LVA and the square tables. It requires reductionLimit >= 2 so that the null-move search ends.
- Positions.Position.constructor: the search tables start zeroed. The source leaves them uninitialised until resetSearchVariables.
- SearchSpecs.Closed: assumes every reachable position generates at most 256 moves. appendMove has no capacity check, so MoveLists.MoveList.AppendMove requires room.
- MakeMoveExactness.GeneratedHashTracks: assumes the position is consistent. It does not prove that makeMove preserves consistency: derived occupancies, no square on two boards, each right backed by its king and rook, and an en-passant square backed by the pawn behind it.
- MakeMoves.MakeMoveAccepts: states the hash property only when every pop and set changed its bit. popBit is a no-op on a clear bit, so otherwise the property fails (for example, castling with no rook on its home square). GeneratedHashTracks discharges the condition for generated moves on consistent positions.
- Integer widths: scores, ply and node counts are unbounded integers. 32-bit int overflow and U64 wrap of perft's node count are not modelled. Bitboards and the magic product are 64-bit words with wrap-around.
- Exceptions: throws (LSBOfEmptyBitboard, CannotFindMagicNumber, MagicNumberNotInitialized, HashKeysNotInitialized) are Result failures, and the callers pass them on.
- setBit and popBit take the board by reference; here they are functions returning the new word, and the callers assign it.
- generateKeys and random.cpp: the Zobrist keys are an input; only generateHash's test that they were generated is modelled.
- loadFenString and loadMoveString: no text parsing. Boards.Board.Load takes the parsed pieces, side, rights and en-passant square.
- Printing and timing: printBitboard, printMove, printState, perftDebugInfo, printPV, and search() with its clock and aspiration window.
- Trivial getters getSideToMove, getBitboards, getSearchNodes and getBestMove: the model reads the fields directly.
- The TranspositionTable global is declared and never used.
- Positions.Position.NegamaxLadder: the late-move reduction and re-search ladder is modelled step by step. Its contract states only the frame and ply discipline, not a value, because the heuristic has no crisp value contract.
- Positions.Position.NullMoveCut: same as the ladder, for the null-move search.
- The history update (main.cpp:1058-1060) is an expression statement with no effect, so the history table never changes during a search.

## Findings

| source | as written | input that shows it | evidently intended | confidence | as-written member | corrected member |
|---|---|---|---|---|---|---|
| main.cpp:906-952 | quiescence has no ply bound. It increments ply for every capture it searches (main.cpp:930), and its sortMoves reads killerMoves[0][ply] and killerMoves[1][ply] for every quiet move (main.cpp:836-840), past the MAX_SEARCH_DEPTH columns | a line that enters quiescence at ply MAX_SEARCH_DEPTH - 1 and plays one capture: its reply sorts at ply MAX_SEARCH_DEPTH | every ply table access stays below MAX_SEARCH_DEPTH, e.g. by standing pat at the last ply | not executed | SearchPlies.RowsOverflow | SearchPlies.RowsInTable |
| main.cpp:954-1070 | negamax writes pvLength[ply] before its depth and ply tests, so a node reached at ply == MAX_SEARCH_DEPTH writes pvLength[MAX_SEARCH_DEPTH]. At ply MAX_SEARCH_DEPTH - 1 the PV update reads pvLength[ply + 1], the same out-of-bounds entry | negamax with depth MAX_SEARCH_DEPTH from the root, along any line of legal moves | the last-ply node touches no table and its parent takes its own ply as the child line's end | not executed | SearchPlies.RowsOverflow | SearchPlies.RowsInTable |
