/**
 * The per-recipe vote state exactly as the web handlers keep it: two voter
 * strings built by concatenating user names and two counts, and the
 * transition that `upvote_recipe` and `downvote_recipe` apply to it.
 */
module VoteState {
  import opened PyStr

  /** The vote fields of a recipe document: `voted_up`, `voted_down`, `upvotes`, `downvotes`. */
  datatype Votes = Votes(votedUp: string, votedDown: string, upvotes: int, downvotes: int)

  /** The vote state a recipe is created with, and reset to whenever it is edited. */
  const Initial: Votes := Votes("", "", 0, 0)

  /** The three branches of a vote handler. */
  datatype Branch = NoOp | Switch | Fresh

  /** Which branch `upvote_recipe` takes: already up, switching from down, or a first vote. */
  function UpBranch(v: Votes, user: string): (r: Branch)
  {
    if Contains(v.votedUp, user) then NoOp
    else if Contains(v.votedDown, user) then Switch
    else Fresh
  }

  /** The vote state `upvote_recipe` leaves in the session and in the store. */
  function Upvote(v: Votes, user: string): (r: Votes)
  {
    match UpBranch(v, user)
    case NoOp => v
    case Switch => Votes(v.votedUp + user, Remove(v.votedDown, user), v.upvotes + 1, v.downvotes - 1)
    case Fresh => Votes(v.votedUp + user, v.votedDown, v.upvotes + 1, v.downvotes)
  }

  /** Which branch `downvote_recipe` takes: already down, switching from up, or a first vote. */
  function DownBranch(v: Votes, user: string): (r: Branch)
  {
    if Contains(v.votedDown, user) then NoOp
    else if Contains(v.votedUp, user) then Switch
    else Fresh
  }

  /** The vote state `downvote_recipe` leaves in the session and in the store. */
  function Downvote(v: Votes, user: string): (r: Votes)
  {
    match DownBranch(v, user)
    case NoOp => v
    case Switch => Votes(Remove(v.votedUp, user), v.votedDown + user, v.upvotes - 1, v.downvotes + 1)
    case Fresh => Votes(v.votedUp, v.votedDown + user, v.upvotes, v.downvotes + 1)
  }

  /** The same state with the up and down roles exchanged. */
  function Mirror(v: Votes): (r: Votes)
  {
    Votes(v.votedDown, v.votedUp, v.downvotes, v.upvotes)
  }

  /** The number of votes of either kind. */
  function Total(v: Votes): (r: int)
  {
    v.upvotes + v.downvotes
  }

  /**
   * What an upvote does, branch by branch.  The branch clauses restate the
   * definition of `Upvote` field by field, as what an observer of the stored
   * document sees; the first clause is the one that needs proof: whatever
   * the branch, the user ends up contained in `voted_up`, which is what
   * makes a repeated upvote a no-op.
   */
  lemma UpvoteEffect(v: Votes, user: string)
    ensures Contains(Upvote(v, user).votedUp, user)
    ensures UpBranch(v, user) == NoOp <==> Contains(v.votedUp, user)
    ensures UpBranch(v, user) == NoOp ==> Upvote(v, user) == v
    ensures UpBranch(v, user) != NoOp ==>
      Upvote(v, user).votedUp == v.votedUp + user && Upvote(v, user).upvotes == v.upvotes + 1
    ensures UpBranch(v, user) == Switch ==>
      Contains(v.votedDown, user) &&
      Upvote(v, user).votedDown == Remove(v.votedDown, user) && Upvote(v, user).downvotes == v.downvotes - 1
    ensures UpBranch(v, user) == Fresh ==>
      !Contains(v.votedDown, user) &&
      Upvote(v, user).votedDown == v.votedDown && Upvote(v, user).downvotes == v.downvotes
  {
    if UpBranch(v, user) != NoOp {
      ContainsAppended(v.votedUp, user);
    }
  }

  /** Upvoting twice is upvoting once; the second upvote takes the no-op branch. */
  lemma UpvoteIdempotent(v: Votes, user: string)
    ensures UpBranch(Upvote(v, user), user) == NoOp
    ensures Upvote(Upvote(v, user), user) == Upvote(v, user)
  {
    UpvoteEffect(v, user);
  }

  /** A first vote adds one to the total, a switch or a no-op keeps it. */
  lemma UpvoteTotal(v: Votes, user: string)
    ensures Total(Upvote(v, user)) == Total(v) + (if UpBranch(v, user) == Fresh then 1 else 0)
  {
  }

  /** `downvote_recipe` is `upvote_recipe` with the up and down roles exchanged, in all three branches. */
  lemma DownvoteMirrorsUpvote(v: Votes, user: string)
    ensures DownBranch(v, user) == UpBranch(Mirror(v), user)
    ensures Downvote(v, user) == Mirror(Upvote(Mirror(v), user))
  {
  }

  /**
   * What a downvote does, branch by branch; the mirror image of
   * `UpvoteEffect`, derived from it through `DownvoteMirrorsUpvote`.  As
   * there, the branch clauses restate `Downvote` field by field and the
   * first clause is the one that needs proof.
   */
  lemma DownvoteEffect(v: Votes, user: string)
    ensures Contains(Downvote(v, user).votedDown, user)
    ensures DownBranch(v, user) == NoOp <==> Contains(v.votedDown, user)
    ensures DownBranch(v, user) == NoOp ==> Downvote(v, user) == v
    ensures DownBranch(v, user) != NoOp ==>
      Downvote(v, user).votedDown == v.votedDown + user && Downvote(v, user).downvotes == v.downvotes + 1
    ensures DownBranch(v, user) == Switch ==>
      Contains(v.votedUp, user) &&
      Downvote(v, user).votedUp == Remove(v.votedUp, user) && Downvote(v, user).upvotes == v.upvotes - 1
    ensures DownBranch(v, user) == Fresh ==>
      !Contains(v.votedUp, user) &&
      Downvote(v, user).votedUp == v.votedUp && Downvote(v, user).upvotes == v.upvotes
  {
    DownvoteMirrorsUpvote(v, user);
    UpvoteEffect(Mirror(v), user);
  }

  /** Downvoting twice is downvoting once; the second downvote takes the no-op branch. */
  lemma DownvoteIdempotent(v: Votes, user: string)
    ensures DownBranch(Downvote(v, user), user) == NoOp
    ensures Downvote(Downvote(v, user), user) == Downvote(v, user)
  {
    DownvoteEffect(v, user);
  }

  /** A first downvote adds one to the total, a switch or a no-op keeps it. */
  lemma DownvoteTotal(v: Votes, user: string)
    ensures Total(Downvote(v, user)) == Total(v) + (if DownBranch(v, user) == Fresh then 1 else 0)
  {
  }

  /** The empty user name is in every voter string, so neither handler changes anything for it. */
  lemma EmptyUserChangesNothing(v: Votes)
    ensures UpBranch(v, "") == NoOp && Upvote(v, "") == v
    ensures DownBranch(v, "") == NoOp && Downvote(v, "") == v
  {
  }

  /**
   * A fresh recipe: "alice" upvotes, then downvotes twice, then "bob"
   * upvotes.  The voter strings and counts follow the up/none/down
   * state machine.
   */
  lemma AliceAndBob()
    ensures Upvote(Initial, "alice") == Votes("alice", "", 1, 0)
    ensures Downvote(Votes("alice", "", 1, 0), "alice") == Votes("", "alice", 0, 1)
    ensures Downvote(Votes("", "alice", 0, 1), "alice") == Votes("", "alice", 0, 1)
    ensures Upvote(Votes("", "alice", 0, 1), "bob") == Votes("bob", "alice", 1, 1)
  {
    assert !Contains("", "alice");
    assert ("" + "alice") == "alice";
    assert Contains("alice", "alice");
    assert Remove("alice", "alice") == "";
    assert !Contains("alice", "bob") by {
      assert "alice"[1..] == "lice" && "lice"[1..] == "ice" && "ice"[1..] == "ce";
      assert "ice"[..3] == "ice" && "lice"[..3] == "lic" && "alice"[..3] == "ali";
      assert !Contains("ce", "bob");
      assert !Contains("ice", "bob");
      assert !Contains("lice", "bob");
    }
    assert "" + "bob" == "bob";
  }
}
