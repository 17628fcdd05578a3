/**
  * Tic-tac-toe between two members: a board of nine cells, the member whose
  * turn it is, and a finished flag. A winner is found by scanning the eight
  * rows, columns and diagonals in a fixed order; the winner of the game is
  * credited the reward.
  */
module TicTacToe {
  import opened Options
  import opened Ledger

  datatype Mark = Empty | X | O

  /** A cell of the board, numbered row by row from the top left. */
  type Cell = i: int | 0 <= i < 9

  datatype Line = Line(a: Cell, b: Cell, c: Cell)

  /** The eight lines, in the order they are checked: rows, columns, diagonals. */
  const Lines: seq<Line> := [
    Line(0, 1, 2), Line(3, 4, 5), Line(6, 7, 8),
    Line(0, 3, 6), Line(1, 4, 7), Line(2, 5, 8),
    Line(0, 4, 8), Line(2, 4, 6)]

  /**
    * Three cells, in increasing order, lie on one straight line of the 3x3
    * grid (cell i is at row i / 3, column i % 3): a row, a column or one of
    * the two diagonals.
    */
  predicate Straight(a: Cell, b: Cell, c: Cell)
  {
    && a < b < c
    && ((a / 3 == b / 3 == c / 3)
        || (a % 3 == b % 3 == c % 3)
        || (a == 0 && b == 4 && c == 8)
        || (a == 2 && b == 4 && c == 6))
  }

  /** The checked lines are exactly the straight lines of the grid, none of them twice. */
  lemma LinesAreStraight()
    ensures forall a: Cell, b: Cell, c: Cell :: Line(a, b, c) in Lines <==> Straight(a, b, c)
    ensures forall i, j :: 0 <= i < j < |Lines| ==> Lines[i] != Lines[j]
  {
    forall a: Cell, b: Cell, c: Cell
      ensures Line(a, b, c) in Lines <==> Straight(a, b, c)
    {
      if Straight(a, b, c) {
        if a / 3 == b / 3 == c / 3 {
          assert Line(a, b, c) == Lines[a / 3];
        } else if a % 3 == b % 3 == c % 3 {
          assert Line(a, b, c) == Lines[3 + a];
        }
      }
    }
  }

  /** The reward a new game credits to its winner. */
  const DefaultReward := 25

  /** A line is complete when its three cells hold the same, non-empty mark. */
  predicate Complete(board: seq<Mark>, l: Line)
    requires |board| == 9
  {
    board[l.a] != Empty && board[l.a] == board[l.b] == board[l.c]
  }

  /** The mark on the first complete line of `lines`, in order, if there is one. */
  function FirstComplete(board: seq<Mark>, lines: seq<Line>): (r: Option<Mark>)
    requires |board| == 9
    ensures r.None? <==> forall j :: 0 <= j < |lines| ==> !Complete(board, lines[j])
    ensures r.Some? ==>
      exists j :: 0 <= j < |lines| && Complete(board, lines[j]) && board[lines[j].a] == r.value
                  && forall i :: 0 <= i < j ==> !Complete(board, lines[i])
  {
    if |lines| == 0 then None
    else if Complete(board, lines[0]) then Some(board[lines[0].a])
    else
      var r := FirstComplete(board, lines[1..]);
      assert forall j :: 1 <= j < |lines| ==> lines[j] == lines[1..][j - 1];
      if r.Some? then
        var j :| 0 <= j < |lines| - 1 && Complete(board, lines[1..][j]) && board[lines[1..][j].a] == r.value
                  && forall i :: 0 <= i < j ==> !Complete(board, lines[1..][i]);
        assert Complete(board, lines[j + 1]) && forall i :: 0 <= i < j + 1 ==> !Complete(board, lines[i]);
        r
      else r
  }

  /** The winning mark of a board: the mark on the first complete line, if any. */
  function Winner(board: seq<Mark>): (r: Option<Mark>)
    requires |board| == 9
    ensures r.None? <==> forall j :: 0 <= j < |Lines| ==> !Complete(board, Lines[j])
    ensures r.Some? ==> r.value != Empty
  {
    FirstComplete(board, Lines)
  }

  /**
    * Writing mark `m` into an empty cell of a board without a winner gives a
    * board whose winner, if any, is `m`: a line completed by the move must
    * pass through the cell just written.
    */
  lemma MoveWinsOnlyForMover(board: seq<Mark>, idx: Cell, m: Mark)
    requires |board| == 9 && Winner(board).None? && board[idx] == Empty && m != Empty
    ensures Winner(board[idx := m]) == None || Winner(board[idx := m]) == Some(m)
  {
    var after := board[idx := m];
    var w := Winner(after);
    if w.Some? {
      var j :| 0 <= j < |Lines| && Complete(after, Lines[j]) && after[Lines[j].a] == w.value;
      // the line was not complete before the move, so it passes through idx
      assert !Complete(board, Lines[j]);
    }
  }

  /** The mark of the player whose turn it is: X for the first player, O otherwise. */
  function MarkOf(px: UserId, turn: UserId): (m: Mark)
    ensures m != Empty
    ensures m == X <==> turn == px
  {
    if turn == px then X else O
  }

  datatype MoveResult =
    | Ignored       // the game is over
    | NotInGame
    | NotYourTurn
    | Taken
    | Won(winner: UserId)
    | Draw
    | Continue

  class Game {
    const guild: GuildId
    const px: UserId
    const po: UserId
    const reward: int
    const board: array<Mark>
    var turn: UserId
    var finished: bool

    /**
      * The game's invariant: nine cells, the turn belongs to one of the two
      * players, and a game still open has no winner and an empty cell.
      */
    ghost predicate Valid()
      reads this, board
    {
      && board.Length == 9
      && (turn == px || turn == po)
      && (!finished ==> Winner(board[..]).None? && Empty in board[..])
    }

    /** A new game: an empty board, X (the first player) to move, not finished. */
    constructor (guild: GuildId, px: UserId, po: UserId, reward: int)
      ensures Valid()
      ensures this.guild == guild && this.px == px && this.po == po && this.reward == reward
      ensures board[..] == seq(9, _ => Empty) && turn == px && !finished
      ensures fresh(board)
    {
      this.guild, this.px, this.po, this.reward := guild, px, po, reward;
      board := new Mark[9](_ => Empty);
      turn := px;
      finished := false;
      new;
      assert Winner(board[..]).None? by {
        forall j | 0 <= j < |Lines| ensures !Complete(board[..], Lines[j]) {
        }
      }
      assert board[..][0] == Empty;
    }

    /**
      * An accepted move into the empty cell `idx`: the mark of the player to
      * move is written there; a complete line ends the game and credits the
      * reward to the mover; a full board ends it as a draw; otherwise the
      * turn passes to the other player.
      */
    method Place(db: Store, idx: Cell) returns (r: MoveResult)
      requires Valid() && !finished && board[idx] == Empty
      modifies this, board, db`balances
      ensures Valid()
      ensures r.Won? || r == Draw || r == Continue
      ensures board[..] == old(board[..])[idx := MarkOf(px, old(turn))]
      ensures r.Won? ==>
        && r.winner == old(turn) && finished && turn == old(turn)
        && Winner(board[..]) == Some(MarkOf(px, old(turn)))
        && forall a :: db.Bal(a) == old(db.Bal(a)) + (if a == Account(guild, r.winner) then reward else 0)
      ensures r == Draw ==>
        && finished && turn == old(turn) && Winner(board[..]).None? && Empty !in board[..]
        && forall a :: db.Bal(a) == old(db.Bal(a))
      ensures r == Continue ==>
        && !finished && turn == (if old(turn) == px then po else px)
        && forall a :: db.Bal(a) == old(db.Bal(a))
      ensures old(db.Sound()) && reward >= 0 ==> db.Sound()
    {
      var mark := MarkOf(px, turn);
      ghost var before := board[..];
      board[idx] := mark;
      var cells := board[..];
      assert cells == before[idx := mark];
      MoveWinsOnlyForMover(before, idx, mark);
      var w := Winner(cells);
      if w.Some? || Empty !in cells {
        finished := true;
        if w.Some? {
          var winUser := if w.value == X then px else po;
          db.AddBalance(Account(guild, winUser), reward);
          return Won(winUser);
        }
        return Draw;
      }
      turn := if turn == px then po else px;
      r := Continue;
    }

    /**
      * The button of cell `idx` pressed by `actor`. Ignored once the game is
      * over; refused, with nothing changed, for a member who does not play,
      * a player out of turn, or a taken cell. Otherwise the mover's mark is
      * written into the cell; then a complete line ends the game and credits
      * the reward once, to the mover; a full board without one ends it as a
      * draw; and otherwise the turn passes to the other player.
      */
    method MakeMove(db: Store, actor: UserId, idx: Cell) returns (r: MoveResult)
      requires Valid()
      modifies this, board, db`balances
      ensures Valid()
      ensures r == Ignored <==> old(finished)
      ensures r == NotInGame <==> !old(finished) && actor != px && actor != po
      ensures r == NotYourTurn <==> !old(finished) && (actor == px || actor == po) && actor != old(turn)
      ensures r == Taken <==> !old(finished) && actor == old(turn) && old(board[idx]) != Empty
      ensures r in {Ignored, NotInGame, NotYourTurn, Taken} ==>
        && board[..] == old(board[..]) && turn == old(turn) && finished == old(finished)
        && forall a :: db.Bal(a) == old(db.Bal(a))
      ensures r !in {Ignored, NotInGame, NotYourTurn, Taken} ==>
        && old(board[idx]) == Empty
        && board[..] == old(board[..])[idx := MarkOf(px, old(turn))]
      ensures r.Won? ==>
        && r.winner == old(turn) && finished && turn == old(turn)
        && Winner(board[..]) == Some(MarkOf(px, old(turn)))
        && forall a :: db.Bal(a) == old(db.Bal(a)) + (if a == Account(guild, r.winner) then reward else 0)
      ensures r == Draw ==>
        && finished && turn == old(turn) && Winner(board[..]).None? && Empty !in board[..]
        && forall a :: db.Bal(a) == old(db.Bal(a))
      ensures r == Continue ==>
        && !finished && turn == (if old(turn) == px then po else px)
        && forall a :: db.Bal(a) == old(db.Bal(a))
      ensures old(db.Sound()) && reward >= 0 ==> db.Sound()
    {
      if finished {
        return Ignored;
      }
      if actor != px && actor != po {
        return NotInGame;
      }
      if actor != turn {
        return NotYourTurn;
      }
      if board[idx] != Empty {
        return Taken;
      }
      r := Place(db, idx);
    }
  }

  /** Opens a game between `p1` (X, to move first) and `p2` (O) with the default reward. */
  method StartTicTacToe(guild: GuildId, p1: UserId, p2: UserId) returns (g: Game)
    ensures fresh(g) && fresh(g.board) && g.Valid()
    ensures g.guild == guild && g.px == p1 && g.po == p2 && g.reward == DefaultReward
    ensures g.board[..] == seq(9, _ => Empty) && g.turn == p1 && !g.finished
  {
    g := new Game(guild, p1, p2, DefaultReward);
  }

  datatype Challenge = ChallengeUsage | NotARealOpponent | Opened(game: Game)

  /**
    * The tic-tac-toe branch of the play command: `author` challenges the
    * first member mentioned. A missing mention is a usage error; a bot or
    * the author themself is refused; otherwise a game opens with the author
    * as X.
    */
  method PlayTicTacToe(guild: GuildId, author: UserId, opponent: Option<Member>) returns (r: Challenge)
    ensures r == ChallengeUsage <==> opponent.None?
    ensures r == NotARealOpponent <==> opponent.Some? && (opponent.value.isBot || opponent.value.id == author)
    ensures r.Opened? <==> opponent.Some? && !opponent.value.isBot && opponent.value.id != author
    ensures r.Opened? ==>
      && fresh(r.game) && fresh(r.game.board) && r.game.Valid()
      && r.game.guild == guild && r.game.px == author && r.game.po == opponent.value.id
      && r.game.reward == DefaultReward
      && r.game.board[..] == seq(9, _ => Empty) && r.game.turn == author && !r.game.finished
  {
    if opponent.None? {
      return ChallengeUsage;
    }
    if opponent.value.isBot || opponent.value.id == author {
      return NotARealOpponent;
    }
    var g := StartTicTacToe(guild, author, opponent.value.id);
    r := Opened(g);
  }
}
