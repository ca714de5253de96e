/**
 * The pure arithmetic of the bot's static evaluator: the material table, the
 * rank, file, opening and castling factors, and the evaluation a position gets,
 * written as functions of the position and of the side the bot plays.  The
 * methods of `Bot.MyBot` that accumulate these terms in fields are proved to
 * compute `Evaluation`.
 */
module Scoring {
  import opened Chess

  function Abs(x: real): real {
    if x < 0.0 then -x else x
  }

  function RMax(a: real, b: real): (r: real)
    ensures r >= a && r >= b && (r == a || r == b)
  {
    if a >= b then a else b
  }

  /** The material value of a piece: P 10, N 30, B 30, R 50, Q 90, K 100. */
  function Material(kind: Kind): (r: real)
    ensures 10.0 <= r <= 100.0
  {
    match kind
    case Pawn => 10.0
    case Rook => 50.0
    case Knight => 30.0
    case Bishop => 30.0
    case Queen => 90.0
    case King => 100.0
  }

  /** The rank seen from the piece owner's side of the board. */
  function AdjustedRank(p: Piece): int {
    if p.owner == White then p.rank else 7 - p.rank
  }

  /** The multiplier the rank factor gets late in the game. */
  function TurnMultiplier(turn: int): (r: real)
    ensures turn <= 40 ==> r == 1.0
    ensures turn > 40 ==> r == turn as real / 20.0 && r > 2.0
  {
    if turn > 40 then turn as real / 20.0 else 1.0
  }

  /** getRankFactor. */
  function RankFactor(kind: Kind, rank: int, turn: int): real {
    var king := if kind == King && turn < 50 then -(rank as real) / 3.0 else 0.0;
    var own :=
      if kind == Pawn then
        (if turn < 30 then (if rank <= 4 then rank as real else 4.0) else rank as real)
      else if turn < 35 then (if rank <= 3 then rank as real else 3.0)
      else 0.0;
    (king + own) * TurnMultiplier(turn)
  }

  /** getFileFactor. */
  function FileFactor(kind: Kind, file: int): (r: real)
    ensures r == -2.0 <==> (kind == Knight || kind == Bishop) && (file == 0 || file == 7)
    ensures r == 0.0 || r == -2.0
  {
    if (kind == Knight || kind == Bishop) && (file == 0 || file == 7) then -2.0 else 0.0
  }

  /** getPositionFactor: rank and file factors, for the bot's own pieces only. */
  function PositionFactor(p: Piece, side: Side, turn: int): (r: real)
    ensures p.owner != side ==> r == 0.0
    ensures p.owner == side && (p.kind == Knight || p.kind == Bishop) && (p.file == 0 || p.file == 7)
            ==> r == RankFactor(p.kind, AdjustedRank(p), turn) - 2.0
  {
    if p.owner == side then RankFactor(p.kind, AdjustedRank(p), turn) + FileFactor(p.kind, p.file)
    else 0.0
  }

  /**
   * getOpeningFactor.  The test that should spare the king compares a piece with
   * a string and never holds, so the king is penalised like any other piece.
   */
  function OpeningFactor(p: Piece, side: Side, value: real): (r: real)
    ensures 0.0 <= value ==> -5.0 / 3.0 <= r <= 0.0
    ensures p.moved || p.owner != side ==> r == 0.0
    ensures !p.moved && p.owner == side && 0.0 <= value ==> r == -RMin(value / 10.0, 5.0) / 3.0
  {
    var o :=
      if p.owner == side then
        var idle := if !p.moved then -value / 10.0 else 0.0;
        if idle <= -5.0 then -5.0 else idle
      else 0.0;
    o / 3.0
  }

  function RMin(a: real, b: real): real {
    if a <= b then a else b
  }

  /** getCastlingFactor: 5 when the bot's king moved two files in the last move. */
  function CastlingFactor(pos: Position, side: Side): (r: real)
    ensures r == 5.0 || r == 0.0
    ensures r == 5.0 <==> Abs((KingFile(pos.kings, side) - KingFile(pos.previousKings, side)) as real) == 2.0
  {
    if KingFile(pos.kings, side) - KingFile(pos.previousKings, side) == 2
       || KingFile(pos.previousKings, side) - KingFile(pos.kings, side) == 2
    then 5.0 else 0.0
  }

  /**
   * getPotentialFactor, with the board scan abstracted: only the side to move
   * gets a potential; it is a third of the counted mobility, which for a
   * queen is halved first.
   */
  function PotentialFactor(pos: Position, p: Piece): (r: real)
    ensures r >= 0.0
    ensures p.owner != pos.player ==> r == 0.0
    ensures p.owner == pos.player && p.kind != Queen ==> 3.0 * r == p.mobility as real
    ensures p.owner == pos.player && p.kind == Queen ==> 6.0 * r == p.mobility as real
  {
    if p.owner != pos.player then 0.0
    else if p.kind == Queen then p.mobility as real / 2.0 / 3.0
    else p.mobility as real / 3.0
  }

  /** What one probe offers to capture: the material of an enemy piece, else 0. */
  function CaptureValue(probe: Probe, mover: Side): (r: real)
    ensures 0.0 <= r <= 100.0
  {
    if probe.Occupied? && probe.owner != mover then Material(probe.kind) else 0.0
  }

  /** The running maximum findBestCapture keeps over a sequence of probes. */
  function Probed(best: real, probes: seq<Probe>, mover: Side): (r: real)
    ensures r >= best
    ensures forall k :: 0 <= k < |probes| ==> r >= CaptureValue(probes[k], mover)
    ensures r == best || exists k :: 0 <= k < |probes| && r == CaptureValue(probes[k], mover)
    decreases |probes|
  {
    if probes == [] then best
    else
      var init := probes[..|probes| - 1];
      var r0 := Probed(best, init, mover);
      assert forall k :: 0 <= k < |init| ==> init[k] == probes[k];
      RMax(r0, CaptureValue(probes[|probes| - 1], mover))
  }

  /** The probes the evaluator makes for `p`: only pieces of the side to move probe. */
  function ProbesOf(pos: Position, p: Piece): seq<Probe> {
    if p.owner == pos.player then p.probes else []
  }

  /** The best capture value after the evaluator has gone through `pieces`. */
  function BestCapture(pos: Position, pieces: seq<Piece>): (r: real)
    ensures 0.0 <= r <= 100.0
    decreases |pieces|
  {
    if pieces == [] then 0.0
    else
      var last := pieces[|pieces| - 1];
      ProbedBound(BestCapture(pos, pieces[..|pieces| - 1]), ProbesOf(pos, last), last.owner);
      Probed(BestCapture(pos, pieces[..|pieces| - 1]), ProbesOf(pos, last), last.owner)
  }

  lemma ProbedBound(best: real, probes: seq<Probe>, mover: Side)
    requires 0.0 <= best <= 100.0
    ensures Probed(best, probes, mover) <= 100.0
  {
  }

  /** The signed material of one piece: own pieces count for, enemy pieces against. */
  function SignedMaterial(p: Piece, side: Side): real {
    if p.owner == side then Material(p.kind) else -Material(p.kind)
  }

  function MaterialSum(pieces: seq<Piece>, side: Side): real
    decreases |pieces|
  {
    if pieces == [] then 0.0
    else MaterialSum(pieces[..|pieces| - 1], side) + SignedMaterial(pieces[|pieces| - 1], side)
  }

  /**
   * What getPieceValue adds to the extra-factor total for one piece: position,
   * potential and opening factors for the bot's own pieces; minus the potential
   * of an enemy piece when the enemy is to move.
   */
  function PieceExtra(pos: Position, p: Piece, side: Side): real {
    if p.owner == side then
      PositionFactor(p, side, pos.turn) + PotentialFactor(pos, p) + OpeningFactor(p, side, Material(p.kind))
    else if pos.player != side then -PotentialFactor(pos, p)
    else 0.0
  }

  function ExtraSum(pos: Position, pieces: seq<Piece>, side: Side): real
    decreases |pieces|
  {
    if pieces == [] then 0.0
    else ExtraSum(pos, pieces[..|pieces| - 1], side) + PieceExtra(pos, pieces[|pieces| - 1], side)
  }

  /** The running sums of evaluate's piece loop after one more piece. */
  lemma SumsStep(pos: Position, i: int, side: Side)
    requires 0 <= i < |pos.pieces|
    ensures MaterialSum(pos.pieces[..i + 1], side) == MaterialSum(pos.pieces[..i], side) + SignedMaterial(pos.pieces[i], side)
    ensures ExtraSum(pos, pos.pieces[..i + 1], side) == ExtraSum(pos, pos.pieces[..i], side) + PieceExtra(pos, pos.pieces[i], side)
    ensures BestCapture(pos, pos.pieces[..i + 1])
            == Probed(BestCapture(pos, pos.pieces[..i]), ProbesOf(pos, pos.pieces[i]), pos.pieces[i].owner)
  {
    assert pos.pieces[..i + 1][..i] == pos.pieces[..i];
  }

  /** The extra-factor total before the clamp. */
  function RawExtra(pos: Position, side: Side, withExtraFactor: bool): real {
    if withExtraFactor then
      ExtraSum(pos, pos.pieces, side) + (if pos.player == side then CastlingFactor(pos, side) else 0.0)
    else 0.0
  }

  /** The best capture, before its sign is set. */
  function RawCapture(pos: Position, withExtraFactor: bool): (r: real)
    ensures 0.0 <= r <= 100.0
  {
    if withExtraFactor then BestCapture(pos, pos.pieces) else 0.0
  }

  /** The capture term: for the bot when it is to move, against it otherwise. */
  function SignedCapture(pos: Position, side: Side, best: real): real {
    if pos.player == side then best else -best
  }

  /**
   * The halving loop of evaluate: halve until the magnitude is below 10, the
   * value of a pawn.  The sign is kept, and a value already below 10 is left
   * alone.
   */
  function Clamp(x: real): (r: real)
    ensures Abs(r) < 10.0
    ensures (x > 0.0 <==> r > 0.0) && (x < 0.0 <==> r < 0.0)
    ensures Abs(x) < 10.0 ==> r == x
    decreases (Abs(x) / 10.0).Floor
  {
    if Abs(x) < 10.0 then x else Clamp(x * 0.5)
  }

  /**
   * evaluate(state, withExtraFactor): the material balance, plus the clamped
   * extra factors, plus the best capture signed by whose turn it is.
   */
  function Evaluation(pos: Position, side: Side, withExtraFactor: bool): real {
    MaterialSum(pos.pieces, side) + Clamp(RawExtra(pos, side, withExtraFactor))
      + SignedCapture(pos, side, RawCapture(pos, withExtraFactor))
  }

  /**
   * No positional or capture term can outweigh more than a pawn plus a king:
   * the evaluation stays within 110 of the material balance, and within 10 of it
   * when the capture term is empty.
   */
  lemma EvaluationNearMaterial(pos: Position, side: Side, withExtraFactor: bool)
    ensures Abs(Evaluation(pos, side, withExtraFactor) - MaterialSum(pos.pieces, side)) < 110.0
    ensures !withExtraFactor ==> Evaluation(pos, side, withExtraFactor) == MaterialSum(pos.pieces, side)
  {
  }

  /**
   * The capture term is the largest capture on offer to the side to move, and 0
   * when nothing is on offer: every probe of every piece of the side to move is at
   * most it, and it is 0 or one of those captures.
   */
  lemma {:induction false} BestCaptureIsMaximum(pos: Position, pieces: seq<Piece>)
    ensures forall i, k :: 0 <= i < |pieces| && pieces[i].owner == pos.player && 0 <= k < |pieces[i].probes|
              ==> CaptureValue(pieces[i].probes[k], pos.player) <= BestCapture(pos, pieces)
    ensures BestCapture(pos, pieces) == 0.0 ||
            exists i, k :: 0 <= i < |pieces| && pieces[i].owner == pos.player && 0 <= k < |pieces[i].probes|
              && BestCapture(pos, pieces) == CaptureValue(pieces[i].probes[k], pos.player)
    decreases |pieces|
  {
    if pieces != [] {
      var init := pieces[..|pieces| - 1];
      BestCaptureIsMaximum(pos, init);
      assert forall i :: 0 <= i < |init| ==> init[i] == pieces[i];
    }
  }

  /**
   * The king is not spared either rule: before turn 35 it gets both the king's
   * penalty and the other pieces' middle-rank bonus.
   */
  lemma KingRankFactor(rank: int, turn: int)
    requires turn < 35
    ensures RankFactor(King, rank, turn) == -(rank as real) / 3.0 + (if rank <= 3 then rank as real else 3.0)
  {
  }
}
