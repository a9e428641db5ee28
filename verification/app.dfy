/**
  The application state of `App` and the events that change it: the
  outcome of the initial load, the three mutation handlers with the outcome
  of their request, the submit handler, and typing in the two inputs. Every
  mutation updates the list first; the request outcome can only set the
  error message afterwards, never undo the update.
 */
module App {
  import opened Wrappers
  import opened Seqs
  import opened Items
  import opened Search
  import opened Text

  /** The message of the error thrown when the load response is not ok. */
  const LoadErrorMessage: string := "Did not receive expected data"

  /** The state variables of `App`. `fetchError` is `null` or a message. */
  datatype AppState = AppState(
    items: seq<Item>,
    newItem: string,
    searchContent: string,
    fetchError: Option<string>,
    isLoading: bool)

  /** The state before anything is loaded. */
  const Init: AppState := AppState([], "", "", None, true)

  /** JavaScript truthiness of a `null`-or-string value. */
  predicate Truthy(v: Option<string>)
  {
    v.Some? && v.value != ""
  }

  /** How the initial load ended: a list, a response that was not ok, or a thrown error. */
  datatype LoadOutcome = Received(list: seq<Item>) | NotOk | Failed(message: string)

  /**
    The events of the application. A mutation carries the value its request
    resolved to: `None` for success, otherwise the error message.
   */
  datatype Event =
    | Loaded(outcome: LoadOutcome)
    | Check(id: int, result: Option<string>)
    | Remove(id: int, result: Option<string>)
    | Submit(result: Option<string>)
    | TypeItem(text: string)
    | TypeSearch(text: string)

  /** `if (result) setFetchError(result)`: only a truthy result replaces the error. */
  function RecordResult(fetchError: Option<string>, result: Option<string>): (e: Option<string>)
    ensures Truthy(result) ==> e == result
    ensures !Truthy(result) ==> e == fetchError
  {
    if Truthy(result) then result else fetchError
  }

  /** The effect of the initial load on the state. */
  function Load(s: AppState, outcome: LoadOutcome): (t: AppState)
    ensures !t.isLoading
    ensures outcome.Received? ==> t.items == outcome.list && t.fetchError == None
    ensures outcome.NotOk? ==> t.items == s.items && t.fetchError == Some(LoadErrorMessage)
    ensures outcome.Failed? ==> t.items == s.items && t.fetchError == Some(outcome.message)
    ensures t.newItem == s.newItem && t.searchContent == s.searchContent
  {
    match outcome
    case Received(list) => s.(items := list, fetchError := None, isLoading := false)
    case NotOk => s.(fetchError := Some(LoadErrorMessage), isLoading := false)
    case Failed(message) => s.(fetchError := Some(message), isLoading := false)
  }

  /**
    `handleCheck`: the toggled list is stored first; when no record has the
    id the handler fails while building the PATCH body, so no request is
    made and the error is left as it was.
   */
  function HandleCheck(s: AppState, id: int, result: Option<string>): (t: AppState)
    ensures t.items == Toggle(s.items, id)
    ensures t.newItem == s.newItem && t.searchContent == s.searchContent && t.isLoading == s.isLoading
    ensures HasId(s.items, id) && Truthy(result) ==> t.fetchError == result
    ensures !(HasId(s.items, id) && Truthy(result)) ==> t.fetchError == s.fetchError
  {
    var listItems := Toggle(s.items, id);
    assert PatchChecked(listItems, id).Some? <==> HasId(s.items, id) by {
      if HasId(s.items, id) {
        PatchPresent(s.items, id);
      } else {
        PatchAbsent(s.items, id);
      }
    }
    match PatchChecked(listItems, id)
    case None => s.(items := listItems)
    case Some(_) => s.(items := listItems, fetchError := RecordResult(s.fetchError, result))
  }

  /** `handleDelete`: the filtered list is stored, then the result is recorded. */
  function HandleDelete(s: AppState, id: int, result: Option<string>): (t: AppState)
    ensures t.items == Delete(s.items, id)
    ensures t.newItem == s.newItem && t.searchContent == s.searchContent && t.isLoading == s.isLoading
    ensures Truthy(result) ==> t.fetchError == result
    ensures !Truthy(result) ==> t.fetchError == s.fetchError
  {
    s.(items := Delete(s.items, id), fetchError := RecordResult(s.fetchError, result))
  }

  /** `addItem`: the extended list is stored, then the result is recorded. */
  function AddItem(s: AppState, text: string, result: Option<string>): (t: AppState)
    ensures t.items == Add(s.items, text)
    ensures t.newItem == s.newItem && t.searchContent == s.searchContent && t.isLoading == s.isLoading
    ensures Truthy(result) ==> t.fetchError == result
    ensures !Truthy(result) ==> t.fetchError == s.fetchError
  {
    s.(items := Add(s.items, text), fetchError := RecordResult(s.fetchError, result))
  }

  /**
    `handleSubmit`: an empty input is refused; any other input is added
    once and the input is cleared.
   */
  function HandleSubmit(s: AppState, result: Option<string>): (t: AppState)
    ensures s.newItem == "" ==> t == s
    ensures s.newItem != "" ==> t.items == Add(s.items, s.newItem) && t.newItem == ""
  {
    if s.newItem == "" then s
    else AddItem(s, s.newItem, result).(newItem := "")
  }

  /**
    One event applied to the state. Only the load ends loading, and typing
    into either input never changes the list or the error.
   */
  function Step(s: AppState, e: Event): (t: AppState)
    ensures e.Loaded? ==> !t.isLoading
    ensures !e.Loaded? ==> t.isLoading == s.isLoading
    ensures e.TypeItem? || e.TypeSearch? ==> t.items == s.items && t.fetchError == s.fetchError
  {
    match e
    case Loaded(outcome) => Load(s, outcome)
    case Check(id, result) => HandleCheck(s, id, result)
    case Remove(id, result) => HandleDelete(s, id, result)
    case Submit(result) => HandleSubmit(s, result)
    case TypeItem(text) => s.(newItem := text)
    case TypeSearch(text) => s.(searchContent := text)
  }

  /** A sequence of events applied in order. */
  function Run(s: AppState, events: seq<Event>): AppState
    decreases |events|
  {
    if |events| == 0 then s else Run(Step(s, events[0]), events[1..])
  }

  predicate IsMutation(e: Event)
  {
    e.Check? || e.Remove? || e.Submit?
  }

  /** The same mutation with its request resolved differently. */
  function WithResult(e: Event, result: Option<string>): (f: Event)
    requires IsMutation(e)
    ensures IsMutation(f) && f.result == result
  {
    match e
    case Check(id, _) => Check(id, result)
    case Remove(id, _) => Remove(id, result)
    case Submit(_) => Submit(result)
  }

  /**
    The request outcome of a mutation never affects the list (no rollback)
    and can only set the error to its own truthy value; a successful
    request leaves an earlier error in place.
   */
  lemma MutationNeverRollsBack(s: AppState, e: Event, other: Option<string>)
    requires IsMutation(e)
    ensures Step(s, e).items == Step(s, WithResult(e, other)).items
    ensures e.Check? ==> Step(s, e).items == Toggle(s.items, e.id)
    ensures e.Remove? ==> Step(s, e).items == Delete(s.items, e.id)
    ensures e.Submit? && s.newItem != "" ==> Step(s, e).items == Add(s.items, s.newItem)
    ensures Step(s, e).fetchError == s.fetchError || Step(s, e).fetchError == e.result
    ensures !Truthy(e.result) ==> Step(s, e).fetchError == s.fetchError
    ensures Truthy(e.result) && (e.Remove? || (e.Submit? && s.newItem != "") || (e.Check? && HasId(s.items, e.id)))
      ==> Step(s, e).fetchError == e.result
    ensures Step(s, e).isLoading == s.isLoading && Step(s, e).searchContent == s.searchContent
  {
  }

  /**
    Checking an id no record has changes nothing: the list is unchanged and,
    since the handler fails before sending its request, so is the error.
   */
  lemma CheckAbsentChangesNothing(s: AppState, id: int, result: Option<string>)
    requires !HasId(s.items, id)
    ensures Step(s, Check(id, result)) == s
  {
    ToggleAbsent(s.items, id);
    PatchAbsent(s.items, id);
  }

  /** Submitting an empty input changes nothing at all. */
  lemma SubmitEmptyIsNoop(s: AppState, result: Option<string>)
    requires s.newItem == ""
    ensures Step(s, Submit(result)) == s
  {
  }

  /** Submitting a non-empty input appends exactly one record and clears the input. */
  lemma SubmitAddsExactlyOne(s: AppState, result: Option<string>)
    requires s.newItem != ""
    ensures var t := Step(s, Submit(result));
      && |t.items| == |s.items| + 1
      && t.items[..|s.items|] == s.items
      && t.items[|s.items|].item == s.newItem
      && !t.items[|s.items|].checked
      && t.newItem == ""
  {
  }

  /** An event that keeps ids increasing: anything but loading a list whose ids do not increase. */
  ghost predicate KeepsIds(e: Event)
  {
    e.Loaded? && e.outcome.Received? ==> IdsIncreasing(e.outcome.list)
  }

  /** Every event of that kind keeps ids increasing. */
  lemma StepPreservesIds(s: AppState, e: Event)
    requires IdsIncreasing(s.items) && KeepsIds(e)
    ensures IdsIncreasing(Step(s, e).items)
  {
    match e
    case Check(id, _) => TogglePreservesIncreasing(s.items, id);
    case Remove(id, _) => DeletePreservesIncreasing(s.items, id);
    case _ =>
  }

  /**
    From a state with increasing ids, any run of such events keeps ids
    increasing, so ids stay unique in the list.
   */
  lemma {:induction false} RunPreservesIds(s: AppState, events: seq<Event>)
    requires IdsIncreasing(s.items)
    requires forall e :: e in events ==> KeepsIds(e)
    ensures IdsIncreasing(Run(s, events).items)
    ensures IdsUnique(Run(s, events).items)
    decreases |events|
  {
    if |events| == 0 {
      IncreasingIdsAreUnique(s.items);
    } else {
      StepPreservesIds(s, events[0]);
      assert forall e :: e in events[1..] ==> e in events;
      RunPreservesIds(Step(s, events[0]), events[1..]);
    }
  }

  /**
    Once an error is shown it stays: no event but a new load clears the
    error, since a successful request does not reset it.
   */
  lemma {:induction false} ErrorIsSticky(s: AppState, events: seq<Event>)
    requires Truthy(s.fetchError)
    requires forall e :: e in events ==> !e.Loaded?
    ensures Truthy(Run(s, events).fetchError)
    decreases |events|
  {
    if |events| > 0 {
      assert events[0] in events;
      assert forall e :: e in events[1..] ==> e in events;
      ErrorIsSticky(Step(s, events[0]), events[1..]);
    }
  }

  /** What the page shows. */
  datatype Screen = Screen(
    loadingShown: bool,
    errorShown: Option<string>,
    content: Option<seq<Item>>,
    footerCount: nat)

  /**
    The rendered page: a loading note while loading, the error when it is
    truthy, the list only when neither, showing the search projection; the
    footer always counts the whole list.
   */
  function Render(s: AppState): (v: Screen)
    ensures v.loadingShown == s.isLoading
    ensures v.errorShown.Some? <==> Truthy(s.fetchError)
    ensures Truthy(s.fetchError) ==> v.errorShown == s.fetchError
    ensures v.content.Some? <==> !Truthy(s.fetchError) && !s.isLoading
    ensures v.content.Some? ==> v.content.value == Project(s.items, s.searchContent)
    ensures v.footerCount == |s.items|
  {
    Screen(
      s.isLoading,
      if Truthy(s.fetchError) then s.fetchError else None,
      if !Truthy(s.fetchError) && !s.isLoading then Some(Project(s.items, s.searchContent)) else None,
      |s.items|)
  }

  /**
    The displayed records are an order-preserving selection of the list,
    and the search text never changes the footer count.
   */
  lemma RenderedContentIsSelection(s: AppState, query: string)
    ensures Render(s).content.Some? ==> IsSubseq(Render(s).content.value, s.items)
    ensures Render(s).content.Some? && s.searchContent == "" ==> Render(s).content.value == s.items
    ensures Render(s.(searchContent := query)).footerCount == Render(s).footerCount
  {
    if s.searchContent == "" {
      ProjectEmptyQuery(s.items);
    }
  }

  /** Typing a text and submitting it successfully, as one step of the walk-through. */
  lemma ScenarioAdd(s: AppState, text: string)
    requires text != ""
    ensures Step(Step(s, TypeItem(text)), Submit(None)) == s.(items := Add(s.items, text), newItem := "")
  {
  }

  /** Checking the first of two records, as one step of the walk-through. */
  lemma ScenarioCheck(s: AppState)
    requires s.items == [Item(1, "Eggs", false), Item(2, "Milk", false)]
    ensures Step(s, Check(1, None)) == s.(items := [Item(1, "Eggs", true), Item(2, "Milk", false)])
  {
    var toggled := Toggle(s.items, 1);
    assert toggled[0] == Item(1, "Eggs", true);
    assert toggled[1] == Item(2, "Milk", false);
    assert toggled == [Item(1, "Eggs", true), Item(2, "Milk", false)];
    var t := HandleCheck(s, 1, None);
    assert t.fetchError == s.fetchError;
    assert t == s.(items := toggled);
  }

  /** Deleting the checked record, as one step of the walk-through. */
  lemma ScenarioRemove(s: AppState)
    requires s.items == [Item(1, "Eggs", true), Item(2, "Milk", false)]
    ensures Step(s, Remove(1, None)) == s.(items := [Item(2, "Milk", false)])
  {
    var milk := Item(2, "Milk", false);
    var d := Delete(s.items, 1);
    SubseqMembers(d, s.items);
    assert milk in s.items;
    assert milk in d;
    assert IdsIncreasing(s.items);
    DeleteRemovesOne(s.items, 1);
    assert d[0] in d;
  }

  /** Searching "mi" in the remaining list, as the last step of the walk-through. */
  lemma ScenarioSearch(s: AppState)
    requires s.items == [Item(2, "Milk", false)] && !s.isLoading && s.fetchError == None
    ensures Render(Step(s, TypeSearch("mi"))) == Screen(false, None, Some([Item(2, "Milk", false)]), 1)
  {
    var milk := Item(2, "Milk", false);
    assert Matches(milk, "mi") by {
      assert Lower("Milk") == "milk";
      assert Lower("mi") == "mi";
      assert IsPrefix("mi", "milk");
    }
    FilterKeepsAll([milk], (x: Item) => Matches(x, "mi"));
    var t := Step(s, TypeSearch("mi"));
    assert t == s.(searchContent := "mi");
    assert Project(t.items, t.searchContent) == [milk];
  }

  /**
    The walk-through: after an empty list is loaded, add "Eggs" and "Milk",
    check Eggs, delete it, then search "mi".
   */
  lemma Scenario()
    ensures var loaded := Step(Init, Loaded(Received([])));
      var s1 := Step(Step(loaded, TypeItem("Eggs")), Submit(None));
      var s2 := Step(Step(s1, TypeItem("Milk")), Submit(None));
      var s3 := Step(s2, Check(1, None));
      var s4 := Step(s3, Remove(1, None));
      && s1.items == [Item(1, "Eggs", false)]
      && s2.items == [Item(1, "Eggs", false), Item(2, "Milk", false)]
      && s3.items == [Item(1, "Eggs", true), Item(2, "Milk", false)]
      && s4.items == [Item(2, "Milk", false)]
      && Render(Step(s4, TypeSearch("mi"))) == Screen(false, None, Some([Item(2, "Milk", false)]), 1)
  {
    var eggs := Item(1, "Eggs", false);
    var milk := Item(2, "Milk", false);
    var loaded := Step(Init, Loaded(Received([])));
    assert loaded == AppState([], "", "", None, false);
    ScenarioAdd(loaded, "Eggs");
    var s1 := Step(Step(loaded, TypeItem("Eggs")), Submit(None));
    assert s1 == AppState([eggs], "", "", None, false);
    ScenarioAdd(s1, "Milk");
    var s2 := Step(Step(s1, TypeItem("Milk")), Submit(None));
    assert s2 == AppState([eggs, milk], "", "", None, false);
    ScenarioCheck(s2);
    var s3 := Step(s2, Check(1, None));
    assert s3 == AppState([eggs.(checked := true), milk], "", "", None, false);
    ScenarioRemove(s3);
    var s4 := Step(s3, Remove(1, None));
    assert s4 == AppState([milk], "", "", None, false);
    ScenarioSearch(s4);
  }
}
