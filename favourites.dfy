/** The in-memory favourites list and the two flows that change it,
    `add_favourite_flow` and `update_favourites_flow`. */
module Favourites {
  import opened Wrappers
  import opened Text
  import opened Weather

  /** The most favourites the add flow accepts. */
  const Capacity: nat := 3

  /** What the add step reported (each case is one message of the flow). */
  datatype AddOutcome =
    | Full
    | Cancelled
    | AlreadyPresent(typed: string)
    | LookupFailed(error: Error)
    | Added(city: string)

  /** What the update flow reported. */
  datatype UpdateOutcome =
    | NothingToUpdate
    | InvalidNumber
    | OutOfRange(choice: int)
    | Replaced(removed: string, replacement: AddOutcome)

  /** A flow's report together with the favourites it leaves. */
  datatype Transition<O> = Transition(outcome: O, after: seq<string>)

  /** `fs` without its entry at 0-based position `i` (`list.pop(i)`). */
  function RemoveAt(fs: seq<string>, i: nat): (r: seq<string>)
    requires i < |fs|
    ensures |r| == |fs| - 1
    ensures forall j :: 0 <= j < i ==> r[j] == fs[j]
    ensures forall j :: i <= j < |r| ==> r[j] == fs[j + 1]
    ensures multiset(r) + multiset{fs[i]} == multiset(fs)
  {
    assert fs == fs[..i] + [fs[i]] + fs[i + 1..];
    fs[..i] + fs[i + 1..]
  }

  /** The steps common to both flows once there is room: prompt for a city, reject the
      empty answer or a name already present as typed, validate by lookup, and append
      the canonical name the lookup returns. */
  function AdmitStep(fs: seq<string>, line: string, fetch: Fetch): (t: Transition<AddOutcome>)
    ensures AllSpace(line) ==> t == Transition(Cancelled, fs)
    ensures !AllSpace(line) && Strip(line) in fs ==> t == Transition(AlreadyPresent(Strip(line)), fs)
    ensures !AllSpace(line) && Strip(line) !in fs && GetWeather(Strip(line), fetch).Err? ==>
      t == Transition(LookupFailed(GetWeather(Strip(line), fetch).error), fs)
    ensures t.outcome.Added? <==> !AllSpace(line) && Strip(line) !in fs && GetWeather(Strip(line), fetch).Ok?
    ensures t.outcome.Added? ==> t.outcome.city == GetWeather(Strip(line), fetch).value.city
    ensures t.after == if t.outcome.Added? then fs + [t.outcome.city] else fs
  {
    match PromptCityName(line)
    case None => Transition(Cancelled, fs)
    case Some(city) =>
      if city in fs then Transition(AlreadyPresent(city), fs)
      else
        match GetWeather(city, fetch)
        case Err(e) => Transition(LookupFailed(e), fs)
        case Ok(info) => Transition(Added(info.city), fs + [info.city])
  }

  /** `add_favourite_flow`: refuse when the list already holds `Capacity` entries, otherwise the add step. */
  function AddFlow(fs: seq<string>, line: string, fetch: Fetch): (t: Transition<AddOutcome>)
    ensures |fs| >= Capacity ==> t == Transition(Full, fs)
    ensures |fs| < Capacity ==> t == AdmitStep(fs, line, fetch)
    ensures t.after != fs <==> t.outcome.Added?
    ensures t.outcome.Added? ==> t.after == fs + [t.outcome.city] && |t.after| <= Capacity
    ensures |t.after| <= Capacity || t.after == fs
  {
    if |fs| >= Capacity then Transition(Full, fs) else AdmitStep(fs, line, fetch)
  }

  /** `update_favourites_flow`: with a non-empty list and a 1-based choice in range, remove
      that entry, then run the add step on what is left; the removal is never undone. */
  function UpdateFlow(fs: seq<string>, choice: Option<int>, line: string, fetch: Fetch): (t: Transition<UpdateOutcome>)
    ensures fs == [] ==> t == Transition(NothingToUpdate, fs)
    ensures fs != [] && choice.None? ==> t == Transition(InvalidNumber, fs)
    ensures fs != [] && choice.Some? && !(1 <= choice.value <= |fs|) ==> t == Transition(OutOfRange(choice.value), fs)
    ensures t.outcome.Replaced? <==> fs != [] && choice.Some? && 1 <= choice.value <= |fs|
    ensures t.outcome.Replaced? ==>
      && t.outcome.removed == fs[choice.value - 1]
      && Transition(t.outcome.replacement, t.after) == AdmitStep(RemoveAt(fs, choice.value - 1), line, fetch)
  {
    if fs == [] then Transition(NothingToUpdate, fs)
    else
      match choice
      case None => Transition(InvalidNumber, fs)
      case Some(c) =>
        if !(1 <= c <= |fs|) then Transition(OutOfRange(c), fs)
        else
          var rest := RemoveAt(fs, c - 1);
          var step := AdmitStep(rest, line, fetch);
          Transition(Replaced(fs[c - 1], step.outcome), step.after)
  }

  /** The favourites list that the menu loop passes to the flows, changed in place. */
  class FavouriteList {
    var items: seq<string>

    constructor ()
      ensures items == []
    {
      items := [];
    }

    /** The add step, appending to `items` when the typed city is new and its lookup succeeds. */
    method Admit(line: string, fetch: Fetch) returns (outcome: AddOutcome)
      modifies this
      ensures Transition(outcome, items) == AdmitStep(old(items), line, fetch)
    {
      var city := PromptCityName(line);
      if city.None? {
        return Cancelled;
      }
      if city.value in items {
        return AlreadyPresent(city.value);
      }
      var info := GetWeather(city.value, fetch);
      if info.Err? {
        return LookupFailed(info.error);
      }
      items := items + [info.value.city];
      outcome := Added(info.value.city);
    }

    /** `add_favourite_flow` on this list. */
    method Add(line: string, fetch: Fetch) returns (outcome: AddOutcome)
      modifies this
      ensures Transition(outcome, items) == AddFlow(old(items), line, fetch)
    {
      if |items| >= Capacity {
        return Full;
      }
      outcome := Admit(line, fetch);
    }

    /** `update_favourites_flow` on this list: first the removal, then, separately, the add step. */
    method Update(choice: Option<int>, line: string, fetch: Fetch) returns (outcome: UpdateOutcome)
      modifies this
      ensures Transition(outcome, items) == UpdateFlow(old(items), choice, line, fetch)
    {
      if items == [] {
        return NothingToUpdate;
      }
      if choice.None? {
        return InvalidNumber;
      }
      var c := choice.value;
      if !(1 <= c <= |items|) {
        return OutOfRange(c);
      }
      var removed := items[c - 1];
      items := items[..c - 1] + items[c..];
      var replacement := Admit(line, fetch);
      outcome := Replaced(removed, replacement);
    }
  }

  /** A successful update keeps the length; any other replacement result leaves the list one shorter,
      with the removal kept. */
  lemma UpdateNoRollback(fs: seq<string>, c: int, line: string, fetch: Fetch)
    requires 1 <= c <= |fs|
    ensures var t := UpdateFlow(fs, Some(c), line, fetch);
      && t.outcome.Replaced?
      && (!t.outcome.replacement.Added? ==> t.after == RemoveAt(fs, c - 1) && |t.after| == |fs| - 1)
      && (t.outcome.replacement.Added? ==>
            |t.after| == |fs| && t.after[|fs| - 1] == t.outcome.replacement.city
            && t.after[..|fs| - 1] == RemoveAt(fs, c - 1))
  {
  }

  /** Neither flow lets a list within capacity grow beyond it, and an update never lengthens the list. */
  lemma FlowsKeepCapacity(fs: seq<string>, choice: Option<int>, line: string, fetch: Fetch)
    requires |fs| <= Capacity
    ensures |AddFlow(fs, line, fetch).after| <= Capacity
    ensures |UpdateFlow(fs, choice, line, fetch).after| <= |fs|
  {
  }

  /** No two entries are equal. */
  predicate Distinct(fs: seq<string>) {
    forall i, j :: 0 <= i < j < |fs| ==> fs[i] != fs[j]
  }

  /** The duplicate check guards distinctness only when the service echoes the typed name. */
  lemma AddKeepsDistinctWhenEchoed(fs: seq<string>, line: string, fetch: Fetch)
    requires Distinct(fs)
    requires var t := AddFlow(fs, line, fetch); t.outcome.Added? ==> t.outcome.city == Strip(line)
    ensures Distinct(AddFlow(fs, line, fetch).after)
  {
    var t := AddFlow(fs, line, fetch);
    if t.outcome.Added? {
      forall i, j | 0 <= i < j < |t.after| ensures t.after[i] != t.after[j] {
        if j == |fs| {
          assert t.after[i] == fs[i];
        } else {
          assert t.after[i] == fs[i] && t.after[j] == fs[j];
        }
      }
    }
  }

  /** Removing an entry keeps a list free of repeats. */
  lemma RemoveAtKeepsDistinct(fs: seq<string>, i: nat)
    requires i < |fs| && Distinct(fs)
    ensures Distinct(RemoveAt(fs, i))
  {
    var r := RemoveAt(fs, i);
    forall a, b | 0 <= a < b < |r| ensures r[a] != r[b] {
      var a' := if a < i then a else a + 1;
      var b' := if b < i then b else b + 1;
      assert r[a] == fs[a'] && r[b] == fs[b'] && a' < b';
    }
  }

  /** The same holds of the update flow, whose add step runs on the list after the removal. */
  lemma UpdateKeepsDistinctWhenEchoed(fs: seq<string>, choice: Option<int>, line: string, fetch: Fetch)
    requires Distinct(fs)
    requires var t := UpdateFlow(fs, choice, line, fetch);
      t.outcome.Replaced? && t.outcome.replacement.Added? ==> t.outcome.replacement.city == Strip(line)
    ensures Distinct(UpdateFlow(fs, choice, line, fetch).after)
  {
    var t := UpdateFlow(fs, choice, line, fetch);
    if t.outcome.Replaced? {
      var rest := RemoveAt(fs, choice.value - 1);
      RemoveAtKeepsDistinct(fs, choice.value - 1);
      if t.outcome.replacement.Added? {
        forall i, j | 0 <= i < j < |t.after| ensures t.after[i] != t.after[j] {
          if j == |rest| {
            assert t.after[i] == rest[i];
          } else {
            assert t.after[i] == rest[i] && t.after[j] == rest[j];
          }
        }
      }
    }
  }

  /** Canonical names are not kept unique: the check compares the typed name, and the service may
      answer a differently spelled request with a name already on the list. */
  lemma CanonicalNamesMayRepeat()
    ensures var body := Body(Some("London"), None, None, None, Some(MainBlock(Some(11.0), Some(10.0), Some(80))));
      AddFlow(["London"], "london", Reply(200, "", body)) == Transition(Added("London"), ["London", "London"])
  {
  }

  /** With the list full, the add flow reports that and changes nothing. */
  lemma AddWhenFullExample(line: string, fetch: Fetch)
    ensures AddFlow(["Paris", "Tokyo", "Lagos"], line, fetch) == Transition(Full, ["Paris", "Tokyo", "Lagos"])
  {
  }

  /** A city the service does not know is reported by name and leaves the list as it was. */
  lemma AddUnknownCityExample(fs: seq<string>, text: string, body: Body)
    requires |fs| < Capacity && "Nowhere123" !in fs
    ensures AddFlow(fs, "Nowhere123", Reply(404, text, body)) == Transition(LookupFailed(CityNotFound("Nowhere123")), fs)
  {
    assert Strip("Nowhere123") == "Nowhere123" by {
      assert [] + "Nowhere123" + [] == "Nowhere123";
      StripPadded([], "Nowhere123", []);
    }
  }

  /** Replacing the first of two favourites by a city the service confirms moves the other one first. */
  lemma UpdateExample(body: Body)
    requires Complete(body) && body.name == Some("Berlin")
    ensures UpdateFlow(["Paris", "Tokyo"], Some(1), "Berlin", Reply(200, "", body))
      == Transition(Replaced("Paris", Added("Berlin")), ["Tokyo", "Berlin"])
  {
    assert Strip("Berlin") == "Berlin" by {
      assert [] + "Berlin" + [] == "Berlin";
      StripPadded([], "Berlin", []);
    }
  }

  /** The duplicate check of the update runs after the removal, so the removed city may be typed back in. */
  lemma UpdateMayRestoreRemoved(fs: seq<string>, c: int, fetch: Fetch)
    requires 1 <= c <= |fs| && Stripped(fs[c - 1]) && fs[c - 1] != []
    requires forall j :: 0 <= j < |fs| && j != c - 1 ==> fs[j] != fs[c - 1]
    ensures !UpdateFlow(fs, Some(c), fs[c - 1], fetch).outcome.replacement.AlreadyPresent?
  {
    var name := fs[c - 1];
    assert [] + name + [] == name;
    StripPadded([], name, []);
  }
}
