/**
 * The web application's state and the handlers that change it: the recipe
 * store, the account store and the ingredient index (the database), and the
 * per-session snapshot of the open recipe that the vote handlers read,
 * update in place and write back.
 */
module Cookbook {
  import opened PyStr
  import opened VoteState

  /** Store-assigned recipe identifiers. */
  type RecipeId = nat

  /** The non-vote fields of a recipe document, copied unchanged by every vote write. */
  datatype Details = Details(
    creator: string,
    name: string,
    image: string,
    description: string,
    keyIngredient: string,
    calories: string,
    time: string,
    serves: string,
    substitute: string)

  /** A recipe document: its non-vote fields and its vote state. */
  datatype Recipe = Recipe(details: Details, votes: Votes)

  /** A session key that may be missing: `session.get` returns `None` for it. */
  datatype Option<T> = None | Some(value: T)

  /**
   * The store's `update(filter, document)` without upsert: the matching
   * document is replaced as a whole; when nothing matches, nothing is
   * written.  A missing session id (`ObjectId(None)`, a new id) matches
   * nothing.
   */
  function Replace(store: map<RecipeId, Recipe>, id: Option<RecipeId>, r: Recipe): (s: map<RecipeId, Recipe>)
    ensures s.Keys == store.Keys
    ensures id.Some? && id.value in store ==> s[id.value] == r
    ensures forall k :: k in store && id != Some(k) ==> s[k] == store[k]
  {
    if id.Some? && id.value in store then store[id.value := r] else store
  }

  /** The outcomes of a registration attempt. */
  datatype Registration = UserExists | NameTooShort | NameTooLong | Registered

  /**
   * The registration checks in the order they are made: an existing name is
   * refused first, then a name shorter than 3, then one longer than 10.
   */
  function CheckUsername(users: map<string, string>, name: string): (r: Registration)
    ensures r == Registered <==> name !in users && 3 <= |name| <= 10
    ensures r == UserExists <==> name in users
    ensures r == NameTooShort <==> name !in users && |name| < 3
    ensures r == NameTooLong <==> name !in users && |name| > 10
  {
    if name in users then UserExists
    else if |name| < 3 then NameTooShort
    else if |name| > 10 then NameTooLong
    else Registered
  }

  /** The document whose fields are empty: what a session holds before any recipe is opened. */
  const NoDetails: Details := Details("", "", "", "", "", "", "", "", "")

  class Site {
    /** The recipe collection, keyed by identifier. */
    var recipes: map<RecipeId, Recipe>
    /** The identifier the store hands out next. */
    var nextId: RecipeId
    /** The account collection: user name to password. */
    var users: map<string, string>
    /** The ingredient index, in insertion order. */
    var ingredients: seq<string>

    /**
     * The signed-in user (`session['user']`); `""` when nobody is signed in,
     * a name registration never accepts.
     */
    var user: string
    /** The open recipe (`session['single_id']`) and the one being edited (`session['edit_id']`). */
    var singleId: Option<RecipeId>
    var editId: Option<RecipeId>
    /** Whether a recipe was ever loaded, so that the snapshot keys below are present in the session. */
    var loaded: bool
    /** The session snapshot of the open recipe: its non-vote fields ... */
    var details: Details
    /** ... and its four vote fields. */
    var votedUp: string
    var votedDown: string
    var upvotes: int
    var downvotes: int

    /**
     * Store identifiers are below `nextId`; every account name passed the
     * registration checks; the ingredient index holds each lower-cased
     * ingredient once; a snapshot is only ever loaded after an id was
     * recorded; an id the session holds is one the store will not hand out
     * again.
     */
    ghost predicate Valid()
      reads this
    {
      && (forall id :: id in recipes ==> id < nextId)
      && (forall n :: n in users ==> 3 <= |n| <= 10)
      && (forall i, j :: 0 <= i < j < |ingredients| ==> ingredients[i] != ingredients[j])
      && (forall i :: 0 <= i < |ingredients| ==> Lower(ingredients[i]) == ingredients[i])
      && (loaded ==> singleId.Some?)
      && (singleId.Some? ==> singleId.value < nextId)
      && (editId.Some? ==> editId.value < nextId)
    }

    /** The session's vote fields as one value. */
    function SessionVotes(): (r: Votes)
      reads this
    {
      Votes(votedUp, votedDown, upvotes, downvotes)
    }

    /** The whole record the session holds for the open recipe. */
    function Snapshot(): (r: Recipe)
      reads this
    {
      Recipe(details, SessionVotes())
    }

    /** Empty collections and a session with nobody signed in and no recipe open. */
    constructor ()
      ensures Valid()
      ensures recipes == map[] && users == map[] && ingredients == []
      ensures user == "" && singleId == None && editId == None && !loaded
    {
      recipes, nextId, users, ingredients := map[], 0, map[], [];
      user, singleId, editId, loaded := "", None, None, false;
      details := NoDetails;
      votedUp, votedDown, upvotes, downvotes := "", "", 0, 0;
    }

    /** `register`: the name is stored with its password and signed in exactly when the checks pass. */
    method Register(name: string, password: string) returns (r: Registration)
      requires Valid()
      modifies this`users, this`user
      ensures Valid()
      ensures r == CheckUsername(old(users), name)
      ensures r == Registered ==> users == old(users)[name := password] && user == name
      ensures r != Registered ==> users == old(users) && user == old(user)
    {
      if name in users {
        return UserExists;
      }
      var count := |name|;
      if count < 3 {
        return NameTooShort;
      } else if count > 10 {
        return NameTooLong;
      }
      users := users[name := password];
      user := name;
      return Registered;
    }

    /**
     * `add_recipe`: a new document under a fresh identifier, created by the
     * signed-in user, with lower-cased name and key ingredient and no votes;
     * the key ingredient joins the index unless it is already there.
     * `image` is the upload's outcome: the stored URL, or `None` when the
     * upload failed; the handler then passes the exception object to
     * `insert`, which cannot encode it, so nothing is stored.  With nobody
     * signed in the handler fails on `session['user']` before anything is
     * stored.
     */
    method AddRecipe(name: string, image: Option<string>, description: string, keyIngredient: string,
                     calories: string, time: string, serves: string, substitute: string)
      returns (id: Option<RecipeId>)
      requires Valid()
      modifies this`recipes, this`nextId, this`ingredients
      ensures Valid()
      ensures id.None? <==> user == "" || image.None?
      ensures id.None? ==> recipes == old(recipes) && ingredients == old(ingredients)
      ensures id.Some? ==> id.value !in old(recipes)
      ensures id.Some? ==> id != singleId && id != editId
      ensures id.Some? ==> recipes == old(recipes)[id.value := Recipe(Details(user, Lower(name), image.value, description,
        Lower(keyIngredient), calories, time, serves, substitute), Initial)]
      ensures id.Some? ==> ingredients == if Lower(keyIngredient) in old(ingredients) then old(ingredients)
                                          else old(ingredients) + [Lower(keyIngredient)]
    {
      if image.None? || user == "" {
        return None;
      }
      var newId := nextId;
      recipes := recipes[newId := Recipe(Details(user, Lower(name), image.value, description,
        Lower(keyIngredient), calories, time, serves, substitute), Votes("", "", 0, 0))];
      nextId := nextId + 1;
      var key := Lower(keyIngredient);
      if key !in ingredients {
        LowerIdempotent(keyIngredient);
        ingredients := ingredients + [key];
      }
      return Some(newId);
    }

    /**
     * `edit_recipe`: remembers which recipe the next update applies to.  The
     * id comes from the request, and a new document never receives it, so
     * the store's counter moves past it.
     */
    method EditRecipe(id: RecipeId)
      requires Valid()
      modifies this`editId, this`nextId
      ensures Valid()
      ensures editId == Some(id)
      ensures nextId == if id < old(nextId) then old(nextId) else id + 1
    {
      editId := Some(id);
      if id >= nextId {
        nextId := id + 1;
      }
    }

    /**
     * `update_recipe`: the edited document is overwritten as a whole, with
     * the signed-in user as creator and its votes reset.  With nobody signed
     * in the handler fails before writing; with no recipe being edited the
     * write matches nothing.
     */
    method UpdateRecipe(name: string, image: string, description: string, keyIngredient: string,
                        calories: string, time: string, serves: string, substitute: string)
      returns (ok: bool)
      requires Valid()
      modifies this`recipes
      ensures Valid()
      ensures ok <==> user != ""
      ensures !ok ==> recipes == old(recipes)
      ensures ok ==> recipes == Replace(old(recipes), editId, Recipe(Details(user, Lower(name), image, description,
        Lower(keyIngredient), calories, time, serves, substitute), Initial))
    {
      if user == "" {
        return false;
      }
      recipes := Replace(recipes, editId, Recipe(Details(user, Lower(name), image, description,
        Lower(keyIngredient), calories, time, serves, substitute), Votes("", "", 0, 0)));
      return true;
    }

    /**
     * `show_single`: the identifier is recorded first; then, if the document
     * exists, all of its fields are copied into the session.  For a missing
     * document the handler fails after recording the identifier.  As in
     * `EditRecipe`, the store's counter moves past the recorded id.
     */
    method ShowSingle(id: RecipeId) returns (found: bool)
      requires Valid()
      modifies this`singleId, this`nextId, this`loaded, this`details, this`votedUp, this`votedDown, this`upvotes, this`downvotes
      ensures Valid()
      ensures singleId == Some(id)
      ensures nextId == if id < old(nextId) then old(nextId) else id + 1
      ensures found <==> id in recipes
      ensures found ==> loaded && Snapshot() == recipes[id]
      ensures !found ==> loaded == old(loaded) && Snapshot() == old(Snapshot())
    {
      singleId := Some(id);
      if id >= nextId {
        nextId := id + 1;
      }
      if id !in recipes {
        return false;
      }
      var r := recipes[id];
      details := r.details;
      votedUp, votedDown := r.votes.votedUp, r.votes.votedDown;
      upvotes, downvotes := r.votes.upvotes, r.votes.downvotes;
      loaded := true;
      return true;
    }

    /** `update`: the session snapshot overwrites the open recipe's whole document. */
    method WriteBack()
      requires Valid()
      modifies this`recipes
      ensures Valid()
      ensures recipes == Replace(old(recipes), singleId, Snapshot())
    {
      recipes := Replace(recipes, singleId, Recipe(details, Votes(votedUp, votedDown, upvotes, downvotes)));
    }

    /**
     * `upvote_recipe`: the session's vote fields become `Upvote` of their old
     * value.  In the no-op branch nothing is written; otherwise the open
     * recipe's document becomes the updated snapshot, its non-vote fields
     * copied from the session.  Before any recipe was loaded the handler
     * changes nothing: it either finds the user in the text `"None"` or
     * fails converting a missing count.
     */
    method UpvoteRecipe()
      requires Valid()
      modifies this`recipes, this`votedUp, this`votedDown, this`upvotes, this`downvotes
      ensures Valid()
      ensures !loaded ==> recipes == old(recipes) && SessionVotes() == old(SessionVotes())
      ensures loaded ==> SessionVotes() == Upvote(old(SessionVotes()), user)
      ensures loaded && UpBranch(old(SessionVotes()), user) == NoOp ==> recipes == old(recipes)
      ensures loaded && UpBranch(old(SessionVotes()), user) != NoOp ==>
        recipes == Replace(old(recipes), singleId, Recipe(details, Upvote(old(SessionVotes()), user)))
    {
      if !loaded {
        return;
      }
      var up, down, ups, downs := votedUp, votedDown, upvotes, downvotes;
      if Contains(up, user) {
        // already upvoted: the page is shown again and nothing is written
      } else if Contains(down, user) {
        downs := downs - 1;
        down := Remove(down, user);
        ups := ups + 1;
        up := up + user;
        votedUp, votedDown, upvotes, downvotes := up, down, ups, downs;
        WriteBack();
      } else {
        ups := ups + 1;
        up := up + user;
        votedUp, upvotes := up, ups;
        recipes := Replace(recipes, singleId, Recipe(details, Votes(up, down, ups, downvotes)));
      }
    }

    /** `downvote_recipe`: the mirror of `UpvoteRecipe`. */
    method DownvoteRecipe()
      requires Valid()
      modifies this`recipes, this`votedUp, this`votedDown, this`upvotes, this`downvotes
      ensures Valid()
      ensures !loaded ==> recipes == old(recipes) && SessionVotes() == old(SessionVotes())
      ensures loaded ==> SessionVotes() == Downvote(old(SessionVotes()), user)
      ensures loaded && DownBranch(old(SessionVotes()), user) == NoOp ==> recipes == old(recipes)
      ensures loaded && DownBranch(old(SessionVotes()), user) != NoOp ==>
        recipes == Replace(old(recipes), singleId, Recipe(details, Downvote(old(SessionVotes()), user)))
    {
      if !loaded {
        return;
      }
      var up, down, ups, downs := votedUp, votedDown, upvotes, downvotes;
      if Contains(down, user) {
        // already downvoted: the page is shown again and nothing is written
      } else if Contains(up, user) {
        downs := downs + 1;
        down := down + user;
        ups := ups - 1;
        up := Remove(up, user);
        votedUp, votedDown, upvotes, downvotes := up, down, ups, downs;
        WriteBack();
      } else {
        downs := downs + 1;
        down := down + user;
        votedDown, downvotes := down, downs;
        recipes := Replace(recipes, singleId, Recipe(details, Votes(up, down, upvotes, downs)));
      }
    }
  }
}
