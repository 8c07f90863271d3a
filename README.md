# Cookbook vote state, modelled in Dafny

The cookbook web application lets users register, add recipes and cast
one up- or down-vote per recipe. Each recipe document carries four vote
fields. `voted_up` and `voted_down` are strings built by concatenating
the names of the voters. `upvotes` and `downvotes` are counts. When a
recipe is opened, the handler copies its whole document into the
session. The vote handlers `upvote_recipe` and `downvote_recipe` then
pick one of three branches for the signed-in user:

- no-op: the user already holds this vote;
- switch: the user holds the opposite vote;
- fresh vote: the user holds neither vote.

After a switch or a fresh vote, the handler updates the session and
overwrites the whole stored document from the session snapshot.

The project has four modules:

- `PyStr` (PyStr.dfy) defines the Python string operations the handlers
  rely on: `user in s` (`Contains`), `s.replace(user, '')` (`Remove`) and
  `lower()` (`Lower`, ASCII only). It also proves how they behave.
- `VoteState` (VoteState.dfy) is the vote transition exactly as written,
  on the stored strings. Its lemmas cover each branch, idempotence, the
  change in the vote total, the up/down mirror symmetry, the empty user
  name, and a worked scenario.
- `VoterLists` (VoterLists.dfy) is the same state machine over explicit
  lists of voter names. It proves that the invariants hold in every
  reachable state: nobody votes both ways, there are no repeated voters,
  and each count equals its list's length. It also proves that the
  string transition is the list transition, as seen through
  concatenation, for every user whose name occurs in the voter strings
  only where it was appended (`Aligned`). Two concrete inputs show what
  goes wrong without that hypothesis (see Findings).
- `Cookbook` (Cookbook.dfy) is a class `Site`. Its fields are the recipe
  store, the account store and the ingredient index, plus the session
  (signed-in user, open recipe, snapshot fields and vote fields). Its
  methods are the handlers, and each one's postcondition ties the new
  state to the functions above.

The voter strings are meant to encode sets of names, each count equal to
its set's size. The code's substring search and replace keep that only
under `Aligned`, and the model states it only there.

## Model

| member | source | states |
|---|---|---|
| `PyStr.ContainsIff` | run.py:271 | `user in s` holds exactly when the user name occurs at some index of `s`; the empty name occurs in every string |
| `PyStr.ContainsAppended` | run.py:284 | after `voted_up + user`, the user is contained in the new voter string |
| `PyStr.RemoveAbsent` | run.py:280 | `replace(user, '')` leaves a string in which the user does not occur unchanged |
| `PyStr.LowerIdempotent` | run.py:136-139 | lower-casing a name or ingredient twice gives the same result as once |
| `VoteState.UpvoteEffect` | run.py:271-297 | branch by branch: no-op leaves the state unchanged; switch appends the user to `voted_up`, removes every occurrence from `voted_down`, and moves one count from down to up; a fresh vote appends and adds one up-vote, leaving the down side unchanged; in every branch the user ends up contained in `voted_up` |
| `VoteState.UpvoteIdempotent` | run.py:271-297 | a second upvote by the same user takes the no-op branch and changes nothing |
| `VoteState.UpvoteTotal` | run.py:277-296 | a fresh upvote raises `upvotes + downvotes` by exactly one; a switch or a no-op leaves it unchanged |
| `VoteState.DownvoteMirrorsUpvote` | run.py:323-381 | `downvote_recipe` is `upvote_recipe` with the up and down roles exchanged, branch for branch |
| `VoteState.DownvoteEffect` | run.py:333-358 | the three downvote branches, mirrored from the upvote ones; the user ends up contained in `voted_down` |
| `VoteState.DownvoteIdempotent` | run.py:333-358 | a second downvote by the same user takes the no-op branch and changes nothing |
| `VoteState.DownvoteTotal` | run.py:338-357 | a fresh downvote raises the total by one; a switch or a no-op keeps it |
| `VoteState.EmptyUserChangesNothing` | run.py:268-275 | the empty user name is contained in every voter string, so both handlers take the no-op branch |
| `VoteState.AliceAndBob` | run.py:261-381 | on a new recipe: alice upvotes (1/0), switches to down (0/1), downvotes again (unchanged); then bob upvotes (1/1) |
| `VoterLists.Upvote` | run.py:261-320 | list upvote: the user ends up up-voting and not down-voting; nobody else's votes change; consistency is preserved; the total rises by one exactly for a first vote; the empty name changes nothing |
| `VoterLists.Downvote` | run.py:323-381 | mirror of `VoterLists.Upvote` |
| `VoterLists.WithoutNoDup` | run.py:280 | removing a voter from a list without repeats keeps it without repeats; if the voter was listed, the list shrinks by exactly one |
| `VoterLists.RunKeepsConsistent` | run.py:261-381 | any sequence of up- and down-votes preserves the vote-state invariants |
| `VoterLists.ReachableIsConsistent` | run.py:261-381 | in every state reachable from a new recipe, nobody is both an up-voter and a down-voter, and each count equals its list's length |
| `VoterLists.InitialIsEmpty` | run.py:144-147 | the initial stored vote fields (`''`, `''`, 0, 0) are the empty, consistent voter lists |
| `VoterLists.FlattenAppend` | run.py:284 | appending a name to the voter list appends it to the stored string |
| `VoterLists.AlignedContains` | run.py:271-276 | for an aligned user, the substring test on the voter string is list membership |
| `VoterLists.AlignedRemove` | run.py:280 | for an aligned user, `replace(user, '')` on the voter string drops exactly that user from the list |
| `VoterLists.AbsentIsAligned` | run.py:293-297 | a user whose name occurs nowhere in a voter string satisfies the alignment hypothesis |
| `VoterLists.UpvoteRefines` | run.py:271-297 | for an aligned user (or the empty name), the string upvote of a rendered list state is the rendering of the list upvote |
| `VoterLists.DownvoteRefines` | run.py:333-358 | the same for the downvote |
| `VoterLists.StoredVotersExclusive` | run.py:271-280 | in a stored state rendering consistent lists, an aligned user is never found in both voter strings |
| `VoterLists.SubstringVoterFalsePositive` | run.py:271-275 | with `voted_up = "bobby"`, an upvote by "bob" takes the no-op branch, while the list upvote counts it |
| `VoterLists.ReplaceErasesOtherVoters` | run.py:276-289 | with `voted_down = "annabel"` (ann and abel), an upvote by "annabel" is taken as a switch: the down count drops to 1 and both other names are erased |
| `Cookbook.Replace` | run.py:37-53 | a store update replaces the whole matching document, leaves every other document alone, and writes nothing when no document matches, including when the session holds no id |
| `Cookbook.CheckUsername` | run.py:74-94 | registration refuses an existing name first, then a name shorter than 3, then one longer than 10, and accepts otherwise |
| `Cookbook.Site.Register` | run.py:70-95 | the account is stored and signed in exactly when `CheckUsername` accepts; every stored name has 3 to 10 characters |
| `Cookbook.Site.AddRecipe` | run.py:128-161 | with a user signed in: a fresh document with that creator, lower-cased name and key ingredient, and empty votes, when the image upload succeeded; the new id differs from every id the session holds, so a pending vote or update cannot reach the new document; the ingredient is inserted into the index only if absent, so the index keeps each lower-cased ingredient once. With nobody signed in, or after a failed upload, nothing is stored |
| `Cookbook.Site.EditRecipe` | run.py:177-181 | records the recipe the next update applies to; the store never hands that id to a new document |
| `Cookbook.Site.UpdateRecipe` | run.py:184-206 | with a user signed in, the edited document is overwritten as a whole, with that creator and its votes reset to empty, and nothing is written when no recipe is being edited; with nobody signed in nothing is written |
| `Cookbook.Site.ShowSingle` | run.py:216-258 | records the open recipe id, which the store never hands to a new document; if the document exists, the session snapshot becomes that whole record and the vote handlers are enabled |
| `Cookbook.Site.WriteBack` | run.py:28-53 | the session snapshot, non-vote fields included, replaces the open recipe's stored document |
| `Cookbook.Site.UpvoteRecipe` | run.py:261-320 | before any recipe was opened nothing changes; otherwise the session's vote fields become `VoteState.Upvote` of their old value, nothing is written in the no-op branch, and in the other branches the open recipe's document becomes the new snapshot, with the non-vote fields copied unchanged from the session |
| `Cookbook.Site.DownvoteRecipe` | run.py:323-381 | mirror of `UpvoteRecipe` |

## Findings

| source | as written | input that shows it | evidently intended | confidence | as-written member | corrected member |
|---|---|---|---|---|---|---|
| run.py:271 | "has this user voted up" is a substring test on the concatenated voter names | `voted_up = "bobby"`, `upvotes = 1`; user "bob", who has not voted, upvotes | bob's vote is counted: the up count becomes 2 | not executed; proved about the model | `VoterLists.SubstringVoterFalsePositive` | `VoterLists.Upvote` |
| run.py:280 | the switch removes the user's name with `replace`, which deletes the text wherever it occurs | `voted_down = "annabel"` from voters "ann" and "abel", `downvotes = 2`; user "annabel", who has not voted, upvotes | a fresh upvote: up count 1, both downvotes kept | not executed; proved about the model | `VoterLists.ReplaceErasesOtherVoters` | `VoterLists.Upvote` |

`Cookbook.Site` keeps the handlers as written. The corrected list
transition lives in `VoterLists`. `UpvoteRefines` and `DownvoteRefines`
prove that the two agree whenever the acting user is aligned.

## Left out

- HTTP routing, template rendering, flash messages and redirects: presentation only.
- The image upload to object storage itself. Its outcome is a parameter of `AddRecipe`: the stored URL, or `None` for a failed upload. The source then passes the exception object to `insert`, which cannot encode it, and the model writes nothing.
- The positional extraction of document values in `show_single`: `ShowSingle` copies the stored record field by field.
- `by_search` (regular-expression search), `by_ingredient` (per-ingredient and per-creator counts for display), `show_all`, `my_recipes` and `ingredient_recipes`: read-only queries for display.
- `sign_in`, `sign_out` and `delete_recipe`: not part of the vote state machine. `user` is set only by `Register`.
- The signed-in user being absent (`None`) is modelled as the name `""`, which registration never accepts. `AddRecipe` and `UpdateRecipe` then fail before writing, as the source does on `session['user']`. The vote handlers' `None in s` error is not distinguished from the no-op branch: in both, nothing is written.
- Session keys read before any recipe is opened: `singleId` and `editId` are `None` until set, and a store update keyed by `None` matches no document. `UpvoteRecipe` and `DownvoteRecipe` change nothing until `ShowSingle` has loaded a snapshot; the source then either finds the user in the text `"None"` or fails converting a missing count. The model does not keep the `"None"` texts themselves.
- Malformed recipe identifiers. Store-assigned identifiers are modelled as a counter. An id taken from a request moves the counter past it, standing for the fact that a new ObjectId never equals an id already seen.
- Counts are stored as decimal text and converted with `int`/`str` around each change. The model keeps them as integers, since `int(str(n)) == n`.
- `PyStr.Lower`: lowers ASCII letters only, not full Unicode case mapping.
- Concurrent sessions and stale snapshots: the model is sequential. `WriteBack` writes whatever snapshot the session holds, but no property about other sessions is stated.
- `VoteState.UpvoteEffect`: does not state the set-like invariants (mutual exclusion, count equals the number of voters) on the strings, because the code does not guarantee them. They are stated in `VoterLists` and carried over to the strings only for aligned users.
- `VoteState.DownvoteEffect`: same reason as `VoteState.UpvoteEffect`.
