/**
 * The game positions the search walks over.  The rules engine that produces them
 * is outside this model: a position is a record of what the bot reads from it
 * (side to move, turn number, game-over and check flags, its text form, its
 * pieces, where the kings stand now and stood one move earlier) together with the
 * ids of its successor positions in a `Game`, an arena of positions indexed by
 * `nat`.  This module also holds the repetition table the bot keeps between moves.
 */
module Chess {
  import opened Wrappers

  datatype Side = White | Black

  datatype Kind = Pawn | Knight | Bishop | Rook | Queen | King

  /**
   * What one probe of the potential-move scan finds on a square it hands to
   * findBestCapture: a square off the board, or a square holding a piece.
   */
  datatype Probe = OffBoard | Occupied(owner: Side, kind: Kind)

  /**
   * A piece on the board.  `mobility` is the number of empty squares the
   * potential-move scan counts for it (before a queen's count is halved) and
   * `probes` the squares that scan passes
   * on to findBestCapture, in order; both stand for the board walk that is not
   * part of this model.
   */
  datatype Piece = Piece(owner: Side, kind: Kind, file: int, rank: int, moved: bool,
                         mobility: nat, probes: seq<Probe>)

  /** The file each side's king stands on. */
  datatype KingFiles = KingFiles(white: int, black: int)

  function KingFile(k: KingFiles, side: Side): int {
    if side == White then k.white else k.black
  }

  datatype Position = Position(
    player: Side,            // side to move
    turn: int,
    over: bool,
    check: bool,
    text: string,            // the position's toString()
    pieces: seq<Piece>,
    kings: KingFiles,
    previousKings: KingFiles, // king files in the position one move earlier
    successors: seq<nat>)    // ids of the legal successor positions

  type Game = seq<Position>

  /**
   * Every successor id names a position of the game, and every text has a space,
   * so that its fingerprint exists.
   */
  ghost predicate WellFormed(game: Game) {
    forall p :: 0 <= p < |game| ==>
      ' ' in game[p].text &&
      forall k :: 0 <= k < |game[p].successors| ==> game[p].successors[k] < |game|
  }

  /** `String.lastIndexOf(char)`: the last index of `c` in `s`, or -1. */
  function LastIndexOf(s: string, c: char): (r: int)
    ensures -1 <= r < |s|
    ensures r == -1 <==> c !in s
    ensures r >= 0 ==> s[r] == c && c !in s[r + 1..]
  {
    if s == [] then -1
    else if s[|s| - 1] == c then |s| - 1
    else
      assert s == s[..|s| - 1] + [s[|s| - 1]];
      LastIndexOf(s[..|s| - 1], c)
  }

  /**
   * The repetition key of a position: the suffix of its text that starts at the
   * last space, the space included.
   */
  function Fingerprint(text: string): (r: string)
    requires ' ' in text
    ensures |r| >= 1 && r[0] == ' '
  {
    text[LastIndexOf(text, ' ')..]
  }

  /** The fingerprint is the whole last space-separated field of the text. */
  lemma FingerprintIsLastField(text: string)
    requires ' ' in text
    ensures ' ' !in Fingerprint(text)[1..]
    ensures |Fingerprint(text)| <= |text| && text[|text| - |Fingerprint(text)|..] == Fingerprint(text)
  {
  }

  /**
   * The repetition table: how often a fingerprint has been seen.  Java's HashMap
   * accepts a null key, which the bot stores when it records a node that never
   * got a name; that key is `None` here.
   */
  type Table = map<Option<string>, int>

  /** The table after one occurrence of `key` is recorded: 1 if new, else 2. */
  function Recorded(t: Table, key: Option<string>): (r: Table)
    ensures r.Keys == t.Keys + {key}
    ensures r[key] == if key in t then 2 else 1
    ensures forall k :: k in t && k != key ==> r[k] == t[k]
  {
    t[key := if key in t then 2 else 1]
  }

  /** Every count in the table is 1 or 2. */
  ghost predicate Counts(t: Table) {
    forall k :: k in t ==> t[k] == 1 || t[k] == 2
  }

  /** The key has been seen twice: a third occurrence is a draw. */
  predicate IsRepetition(t: Table, key: Option<string>) {
    key in t && t[key] == 2
  }

  /** Moving into `p` would repeat a position already seen twice. */
  predicate IsDraw(t: Table, p: Position)
    requires ' ' in p.text
  {
    IsRepetition(t, Some(Fingerprint(p.text)))
  }

  /** Recording keeps every count in {1, 2}. */
  lemma RecordedCounts(t: Table, key: Option<string>)
    requires Counts(t)
    ensures Counts(Recorded(t, key))
  {
  }

  /**
   * Recording the same key twice marks it as a repetition, whatever the table
   * held before, and recording it again changes nothing.
   */
  lemma RecordedTwice(t: Table, key: Option<string>)
    ensures IsRepetition(Recorded(Recorded(t, key), key), key)
    ensures Recorded(Recorded(Recorded(t, key), key), key) == Recorded(Recorded(t, key), key)
  {
  }
}
