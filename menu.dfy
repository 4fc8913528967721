/** The menu loop of `main`, driven by a script of the user's answers and the lookups' results. */
module Menu {
  import opened Wrappers
  import opened Text
  import opened Weather
  import opened Favourites

  datatype Action = Search | AddFavourite | ListFavourites | UpdateFavourites | Exit | Unrecognised

  /** The menu choice for one typed line, compared after stripping. */
  function Dispatch(choice: string): (a: Action)
    ensures a == Search <==> Strip(choice) == "1"
    ensures a == AddFavourite <==> Strip(choice) == "2"
    ensures a == ListFavourites <==> Strip(choice) == "3"
    ensures a == UpdateFavourites <==> Strip(choice) == "4"
    ensures a == Exit <==> Strip(choice) == "5"
    ensures a == Unrecognised <==> Strip(choice) !in {"1", "2", "3", "4", "5"}
  {
    var c := Strip(choice);
    if c == "1" then Search
    else if c == "2" then AddFavourite
    else if c == "3" then ListFavourites
    else if c == "4" then UpdateFavourites
    else if c == "5" then Exit
    else Unrecognised
  }

  /** One pass through the loop: the menu choice and whatever the chosen flow asks for —
      the parsed removal number, the city line and the result of the lookup for that city. */
  datatype Turn = Turn(choice: string, index: Option<int>, line: string, fetch: Fetch)

  /** A choice that runs the add or the update flow, the only flows that change the favourites. */
  predicate Changes(turn: Turn) {
    Dispatch(turn.choice).AddFavourite? || Dispatch(turn.choice).UpdateFavourites?
  }

  /** The favourites after one pass; searching, listing, exiting and an unrecognised choice only read them. */
  function StepFavourites(fs: seq<string>, turn: Turn): (r: seq<string>)
    ensures !Changes(turn) ==> r == fs
    ensures Dispatch(turn.choice).AddFavourite? ==> r == fs || (|r| == |fs| + 1 && r[..|fs|] == fs)
    ensures Dispatch(turn.choice).UpdateFavourites? ==> |r| <= |fs|
  {
    match Dispatch(turn.choice)
    case AddFavourite => AddFlow(fs, turn.line, turn.fetch).after
    case UpdateFavourites => UpdateFlow(fs, turn.index, turn.line, turn.fetch).after
    case _ => fs
  }

  /** The favourites when the loop stops: at the first exit choice, or when the script runs out. */
  function Session(fs: seq<string>, turns: seq<Turn>): (r: seq<string>)
    ensures (forall k :: 0 <= k < |turns| ==> !Changes(turns[k])) ==> r == fs
    decreases |turns|
  {
    if turns == [] || Dispatch(turns[0].choice) == Exit then fs
    else Session(StepFavourites(fs, turns[0]), turns[1..])
  }

  /** However the user drives the menu, a list within capacity stays within it. */
  lemma {:induction false} SessionKeepsCapacity(fs: seq<string>, turns: seq<Turn>)
    requires |fs| <= Capacity
    ensures |Session(fs, turns)| <= Capacity
    decreases |turns|
  {
    if turns != [] && Dispatch(turns[0].choice) != Exit {
      var t := turns[0];
      FlowsKeepCapacity(fs, t.index, t.line, t.fetch);
      SessionKeepsCapacity(StepFavourites(fs, t), turns[1..]);
    }
  }

  /** Turns after the first exit choice are never read. */
  lemma {:induction false} SessionStopsAtExit(fs: seq<string>, turns: seq<Turn>, i: nat)
    requires i < |turns| && Dispatch(turns[i].choice) == Exit
    requires forall k :: 0 <= k < i ==> Dispatch(turns[k].choice) != Exit
    ensures Session(fs, turns) == Session(fs, turns[..i])
    decreases i
  {
    if i > 0 {
      assert turns[..i][0] == turns[0] && turns[..i][1..] == turns[1..][..i - 1];
      SessionStopsAtExit(StepFavourites(fs, turns[0]), turns[1..], i - 1);
    }
  }

  /** `main`: start with no favourites and dispatch each turn to its flow until the exit choice. */
  method Run(turns: seq<Turn>) returns (favourites: seq<string>, exited: bool)
    ensures favourites == Session([], turns)
    ensures |favourites| <= Capacity
    ensures exited <==> exists i :: 0 <= i < |turns| && Dispatch(turns[i].choice) == Exit
  {
    var store := new FavouriteList();
    var i := 0;
    exited := false;
    while i < |turns|
      invariant 0 <= i <= |turns|
      invariant Session(store.items, turns[i..]) == Session([], turns)
      invariant |store.items| <= Capacity
      invariant forall k :: 0 <= k < i ==> Dispatch(turns[k].choice) != Exit
    {
      var turn := turns[i];
      var action := Dispatch(turn.choice);
      assert turns[i..][0] == turn && turns[i..][1..] == turns[i + 1..];
      match action {
        case Search =>
        case AddFavourite =>
          var _ := store.Add(turn.line, turn.fetch);
        case ListFavourites =>
        case UpdateFavourites =>
          var _ := store.Update(turn.index, turn.line, turn.fetch);
        case Exit =>
          exited := true;
          break;
        case Unrecognised =>
      }
      i := i + 1;
    }
    assert !exited ==> turns[i..] == [];
    favourites := store.items;
  }
}
