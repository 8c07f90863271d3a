/**
 * The vote state with the voter sets written out as lists of user names,
 * the form the voter strings are meant to encode.  The vote handlers'
 * substring test and `replace` agree with list membership and removal for
 * a user whose name occurs in the concatenation only where it was appended
 * (`Aligned`); under that hypothesis the string transition of `VoteState`
 * is this list transition seen through `Render`.  Without it they differ,
 * and `SubstringVoterFalsePositive` and `ReplaceErasesOtherVoters` show how.
 */
module VoterLists {
  import opened PyStr
  import VoteState

  /** Voter lists in the order the votes were cast, and the two counts. */
  datatype Ballot = Ballot(ups: seq<string>, downs: seq<string>, upCount: int, downCount: int)

  /** No votes yet. */
  const Empty: Ballot := Ballot([], [], 0, 0)

  /** `''.join(xs)`: the voter string a list of names is stored as. */
  function Flatten(xs: seq<string>): (r: string)
  {
    if xs == [] then "" else xs[0] + Flatten(xs[1..])
  }

  /** The list with every entry equal to `u` dropped. */
  function Without(xs: seq<string>, u: string): (r: seq<string>)
    ensures forall w :: w in r <==> w in xs && w != u
    ensures |r| <= |xs|
  {
    if xs == [] then [] else (if xs[0] == u then [] else [xs[0]]) + Without(xs[1..], u)
  }

  /** No name is listed twice. */
  ghost predicate NoDup(xs: seq<string>)
  {
    forall i, j :: 0 <= i < j < |xs| ==> xs[i] != xs[j]
  }

  /**
   * The vote-state invariants: each voter list has no repeats, nobody is in
   * both lists, and each count is the length of its list.
   */
  ghost predicate Consistent(b: Ballot)
  {
    && NoDup(b.ups)
    && NoDup(b.downs)
    && (forall w :: w in b.ups ==> w !in b.downs)
    && b.upCount == |b.ups|
    && b.downCount == |b.downs|
  }

  lemma NoDupCons(x: string, ys: seq<string>)
    ensures NoDup([x] + ys) <==> x !in ys && NoDup(ys)
  {
    var xs := [x] + ys;
    if x !in ys && NoDup(ys) {
      forall i, j | 0 <= i < j < |xs| ensures xs[i] != xs[j] {
        if i > 0 {
          assert xs[i] == ys[i - 1] && xs[j] == ys[j - 1];
        } else {
          assert xs[j] == ys[j - 1];
        }
      }
    }
    if NoDup(xs) {
      forall i, j | 0 <= i < j < |ys| ensures ys[i] != ys[j] {
        assert ys[i] == xs[i + 1] && ys[j] == xs[j + 1];
      }
      forall k | 0 <= k < |ys| ensures ys[k] != x {
        assert xs[0] == x && xs[k + 1] == ys[k];
      }
    }
  }

  lemma NoDupSnoc(xs: seq<string>, x: string)
    ensures NoDup(xs) && x !in xs ==> NoDup(xs + [x])
  {
  }

  /** Dropping a name from a repeat-free list keeps it repeat-free and, if the name was there, shortens it by one. */
  lemma {:induction false} WithoutNoDup(xs: seq<string>, u: string)
    ensures NoDup(xs) ==> NoDup(Without(xs, u))
    ensures NoDup(xs) && u in xs ==> |Without(xs, u)| == |xs| - 1
    ensures u !in xs ==> Without(xs, u) == xs
    decreases |xs|
  {
    if xs != [] {
      assert xs == [xs[0]] + xs[1..];
      NoDupCons(xs[0], xs[1..]);
      WithoutNoDup(xs[1..], u);
      if xs[0] != u {
        NoDupCons(xs[0], Without(xs[1..], u));
      }
    }
  }

  /** The list form of `upvote_recipe`; the empty name changes nothing. */
  function Upvote(b: Ballot, u: string): (r: Ballot)
    ensures u == "" ==> r == b
    ensures Consistent(b) ==> Consistent(r)
    ensures u != "" ==> u in r.ups
    ensures Consistent(b) && u != "" ==> u !in r.downs
    ensures forall w :: w != u ==> (w in r.ups <==> w in b.ups) && (w in r.downs <==> w in b.downs)
    ensures Consistent(b) ==>
      r.upCount + r.downCount == b.upCount + b.downCount + (if u == "" || u in b.ups || u in b.downs then 0 else 1)
  {
    if u == "" || u in b.ups then b
    else if u in b.downs then
      WithoutNoDup(b.downs, u);
      NoDupSnoc(b.ups, u);
      Ballot(b.ups + [u], Without(b.downs, u), b.upCount + 1, b.downCount - 1)
    else
      NoDupSnoc(b.ups, u);
      Ballot(b.ups + [u], b.downs, b.upCount + 1, b.downCount)
  }

  /** The list form of `downvote_recipe`; the empty name changes nothing. */
  function Downvote(b: Ballot, u: string): (r: Ballot)
    ensures u == "" ==> r == b
    ensures Consistent(b) ==> Consistent(r)
    ensures u != "" ==> u in r.downs
    ensures Consistent(b) && u != "" ==> u !in r.ups
    ensures forall w :: w != u ==> (w in r.ups <==> w in b.ups) && (w in r.downs <==> w in b.downs)
    ensures Consistent(b) ==>
      r.upCount + r.downCount == b.upCount + b.downCount + (if u == "" || u in b.ups || u in b.downs then 0 else 1)
  {
    if u == "" || u in b.downs then b
    else if u in b.ups then
      WithoutNoDup(b.ups, u);
      NoDupSnoc(b.downs, u);
      Ballot(Without(b.ups, u), b.downs + [u], b.upCount - 1, b.downCount + 1)
    else
      NoDupSnoc(b.downs, u);
      Ballot(b.ups, b.downs + [u], b.upCount, b.downCount + 1)
  }

  /** One request to a vote endpoint by a given user. */
  datatype Act = Up(user: string) | Down(user: string)

  function Step(b: Ballot, a: Act): (r: Ballot)
  {
    match a
    case Up(u) => Upvote(b, u)
    case Down(u) => Downvote(b, u)
  }

  /** The vote state after a sequence of requests, in order. */
  function Run(b: Ballot, acts: seq<Act>): (r: Ballot)
    decreases |acts|
  {
    if acts == [] then b else Run(Step(b, acts[0]), acts[1..])
  }

  lemma {:induction false} RunKeepsConsistent(b: Ballot, acts: seq<Act>)
    requires Consistent(b)
    ensures Consistent(Run(b, acts))
    decreases |acts|
  {
    if acts != [] {
      RunKeepsConsistent(Step(b, acts[0]), acts[1..]);
    }
  }

  /**
   * Every state reachable from a new recipe keeps the invariants.  The last
   * three clauses repeat parts of `Consistent` so that the statement reads
   * on its own: nobody is both an up-voter and a down-voter, and each count
   * is its list's length.
   */
  lemma ReachableIsConsistent(acts: seq<Act>)
    ensures Consistent(Run(Empty, acts))
    ensures forall w :: w in Run(Empty, acts).ups ==> w !in Run(Empty, acts).downs
    ensures Run(Empty, acts).upCount == |Run(Empty, acts).ups|
    ensures Run(Empty, acts).downCount == |Run(Empty, acts).downs|
  {
    RunKeepsConsistent(Empty, acts);
  }

  /** The vote fields a list state is stored as. */
  function Render(b: Ballot): (r: VoteState.Votes)
  {
    VoteState.Votes(Flatten(b.ups), Flatten(b.downs), b.upCount, b.downCount)
  }

  /** The stored initial vote state is the empty ballot, which is consistent. */
  lemma InitialIsEmpty()
    ensures Render(Empty) == VoteState.Initial
    ensures Consistent(Empty)
  {
  }

  lemma {:induction false} FlattenAppend(xs: seq<string>, x: string)
    ensures Flatten(xs + [x]) == Flatten(xs) + x
    decreases |xs|
  {
    if xs == [] {
      assert [x][1..] == [];
    } else {
      assert (xs + [x])[1..] == xs[1..] + [x];
      FlattenAppend(xs[1..], x);
    }
  }

  /**
   * The hypothesis under which the voter string behaves like the list: inside
   * each listed name, `u` occurs only at its start and only when the name is
   * `u` itself.  A name that is a prefix or suffix of another (say "bob" and
   * "bobby"), or that spans the boundary of two names, breaks it.
   */
  ghost predicate Aligned(xs: seq<string>, u: string)
    decreases |xs|
  {
    xs == [] ||
    ((forall i :: 0 <= i < |xs[0]| && OccursAt(Flatten(xs), u, i) ==> i == 0 && xs[0] == u)
     && Aligned(xs[1..], u))
  }

  /** Under `Aligned`, Python's `u in voters` is list membership. */
  lemma {:induction false} AlignedContains(xs: seq<string>, u: string)
    requires u != "" && Aligned(xs, u)
    ensures Contains(Flatten(xs), u) <==> u in xs
    decreases |xs|
  {
    if xs != [] {
      var s := Flatten(xs);
      assert s == xs[0] + Flatten(xs[1..]);
      assert xs == [xs[0]] + xs[1..];
      AlignedContains(xs[1..], u);
      if xs[0] == u {
        assert s[..|u|] == u;
      } else {
        SkipContains(s, u, |xs[0]|);
        assert s[|xs[0]|..] == Flatten(xs[1..]);
      }
    }
  }

  /** Under `Aligned`, Python's `voters.replace(u, '')` drops `u` from the list. */
  lemma {:induction false} AlignedRemove(xs: seq<string>, u: string)
    requires u != "" && Aligned(xs, u)
    ensures Remove(Flatten(xs), u) == Flatten(Without(xs, u))
    decreases |xs|
  {
    if xs != [] {
      var s := Flatten(xs);
      assert s == xs[0] + Flatten(xs[1..]);
      AlignedRemove(xs[1..], u);
      if xs[0] == u {
        assert s[..|u|] == u && s[|u|..] == Flatten(xs[1..]);
        assert |s| >= |u| && Remove(s, u) == Remove(s[|u|..], u);
        assert Without(xs, u) == Without(xs[1..], u);
        assert Remove(s, u) == Flatten(Without(xs[1..], u));
      } else {
        SkipRemove(s, u, |xs[0]|);
        assert s[..|xs[0]|] == xs[0] && s[|xs[0]|..] == Flatten(xs[1..]);
        var w := Without(xs[1..], u);
        assert ([xs[0]] + w)[1..] == w;
      }
    }
  }

  /** A name that occurs nowhere in the voter string satisfies the hypothesis. */
  lemma {:induction false} AbsentIsAligned(xs: seq<string>, u: string)
    requires !Contains(Flatten(xs), u)
    ensures Aligned(xs, u)
    decreases |xs|
  {
    if xs != [] {
      var s := Flatten(xs);
      assert s == xs[0] + Flatten(xs[1..]);
      ContainsIff(s, u);
      SkipContains(s, u, |xs[0]|);
      assert s[|xs[0]|..] == Flatten(xs[1..]);
      AbsentIsAligned(xs[1..], u);
    }
  }

  /**
   * For an aligned user, `upvote_recipe` on the stored strings is the list
   * upvote: same branch, same counts, and the voter strings are the
   * concatenations of the new lists.
   */
  lemma UpvoteRefines(b: Ballot, u: string)
    requires u == "" || (Aligned(b.ups, u) && Aligned(b.downs, u))
    ensures VoteState.Upvote(Render(b), u) == Render(Upvote(b, u))
  {
    if u != "" {
      AlignedContains(b.ups, u);
      AlignedContains(b.downs, u);
      FlattenAppend(b.ups, u);
      if u in b.downs {
        AlignedRemove(b.downs, u);
      }
    }
  }

  /** The mirror of `UpvoteRefines` for `downvote_recipe`. */
  lemma DownvoteRefines(b: Ballot, u: string)
    requires u == "" || (Aligned(b.ups, u) && Aligned(b.downs, u))
    ensures VoteState.Downvote(Render(b), u) == Render(Downvote(b, u))
  {
    if u != "" {
      AlignedContains(b.ups, u);
      AlignedContains(b.downs, u);
      FlattenAppend(b.downs, u);
      if u in b.ups {
        AlignedRemove(b.ups, u);
      }
    }
  }

  /**
   * In a stored state that renders a consistent ballot, an aligned user is
   * never found by the substring test in both voter strings.
   */
  lemma StoredVotersExclusive(b: Ballot, u: string)
    requires Consistent(b) && u != "" && Aligned(b.ups, u) && Aligned(b.downs, u)
    ensures !(Contains(Render(b).votedUp, u) && Contains(Render(b).votedDown, u))
  {
    AlignedContains(b.ups, u);
    AlignedContains(b.downs, u);
  }

  /**
   * "bobby" has upvoted; "bob" has not voted.  The substring test finds "bob"
   * in "bobby", so `upvote_recipe` takes the no-op branch and bob's vote is
   * lost, while the list upvote counts it.
   */
  lemma SubstringVoterFalsePositive()
    ensures Render(Ballot(["bobby"], [], 1, 0)) == VoteState.Votes("bobby", "", 1, 0)
    ensures VoteState.Upvote(VoteState.Votes("bobby", "", 1, 0), "bob") == VoteState.Votes("bobby", "", 1, 0)
    ensures Upvote(Ballot(["bobby"], [], 1, 0), "bob") == Ballot(["bobby", "bob"], [], 2, 0)
  {
  }

  /**
   * "ann" and "abel" have downvoted; "annabel" has not voted.  Her upvote is
   * taken for a switch: the down count drops to 1 and `replace` erases both
   * other voters' names, while the list upvote leaves their votes alone.
   */
  lemma ReplaceErasesOtherVoters()
    ensures Render(Ballot([], ["ann", "abel"], 0, 2)) == VoteState.Votes("", "annabel", 0, 2)
    ensures VoteState.Upvote(VoteState.Votes("", "annabel", 0, 2), "annabel") == VoteState.Votes("annabel", "", 1, 1)
    ensures Upvote(Ballot([], ["ann", "abel"], 0, 2), "annabel") == Ballot(["annabel"], ["ann", "abel"], 1, 2)
  {
  }
}
