/**
 * The task list's filter bar in the browser. The filters live in the page's
 * query string: clicking an assignee or a status toggles its id in the
 * `assignee_ids[]`/`status_ids[]` list, and a date input sets or clears one
 * bound. Each handler builds a new parameter list and navigates to it.
 */
module FilterBar {
  import opened Common
  import opened Text
  import TaskService

  // ---------------------------------------------------------------------------
  // URLSearchParams
  // ---------------------------------------------------------------------------

  /** One `name=value` pair of a query string. */
  datatype Param = Param(key: string, value: string)

  /** The values of every pair named `key`, in order: `getAll(key)`. */
  function Values(entries: seq<Param>, key: string): (r: seq<string>)
    ensures |r| <= |entries|
  {
    if entries == [] then []
    else (if entries[0].key == key then [entries[0].value] else []) + Values(entries[1..], key)
  }

  /** The list without the pairs named `key`: `delete(key)`. */
  function Without(entries: seq<Param>, key: string): seq<Param> {
    if entries == [] then []
    else (if entries[0].key == key then [] else [entries[0]]) + Without(entries[1..], key)
  }

  /**
   * `set(key, value)`: the first pair named `key` takes the value and the
   * other pairs of that name go; with none, the pair is appended.
   */
  function SetEntry(entries: seq<Param>, key: string, value: string): seq<Param> {
    if entries == [] then [Param(key, value)]
    else if entries[0].key == key then [Param(key, value)] + Without(entries[1..], key)
    else [entries[0]] + SetEntry(entries[1..], key, value)
  }

  /** `get(key) || ''`: the first value of that name, or the empty string. */
  function FirstValue(entries: seq<Param>, key: string): string {
    var vs := Values(entries, key);
    if vs == [] then "" else vs[0]
  }

  lemma {:induction false} ValuesAppend(a: seq<Param>, b: seq<Param>, key: string)
    ensures Values(a + b, key) == Values(a, key) + Values(b, key)
  {
    if a == [] {
      assert a + b == b;
    } else {
      var ab := a + b;
      assert ab[0] == a[0] && ab[1..] == a[1..] + b;
      ValuesAppend(a[1..], b, key);
      assert Values(ab, key) == Values([a[0]], key) + Values(ab[1..], key);
      assert Values(a, key) == Values([a[0]], key) + Values(a[1..], key);
    }
  }

  /** Deleting a name empties its list and leaves every other name's values as they were. */
  lemma {:induction false} WithoutValues(entries: seq<Param>, key: string, other: string)
    ensures Values(Without(entries, key), other) == if other == key then [] else Values(entries, other)
  {
    if entries != [] {
      WithoutValues(entries[1..], key, other);
      var head := if entries[0].key == key then [] else [entries[0]];
      ValuesAppend(head, Without(entries[1..], key), other);
    }
  }

  /** Setting a name leaves it exactly one value and every other name's values as they were. */
  lemma {:induction false} SetEntryValues(entries: seq<Param>, key: string, value: string, other: string)
    ensures Values(SetEntry(entries, key, value), other) == if other == key then [value] else Values(entries, other)
  {
    if entries == [] {
    } else if entries[0].key == key {
      WithoutValues(entries[1..], key, other);
      ValuesAppend([Param(key, value)], Without(entries[1..], key), other);
    } else {
      SetEntryValues(entries[1..], key, value, other);
      ValuesAppend([entries[0]], SetEntry(entries[1..], key, value), other);
    }
  }

  /** A `URLSearchParams` object: its list of pairs, which the handlers edit in place. */
  class SearchParams {
    var entries: seq<Param>

    /** `new URLSearchParams(searchParams.toString())`: a separate copy of the current pairs. */
    constructor (entries0: seq<Param>)
      ensures entries == entries0
    {
      entries := entries0;
    }

    function GetAll(key: string): seq<string>
      reads this
    {
      Values(entries, key)
    }

    method Delete(key: string)
      modifies this
      ensures entries == Without(old(entries), key)
    {
      entries := Without(entries, key);
    }

    method Append(key: string, value: string)
      modifies this
      ensures entries == old(entries) + [Param(key, value)]
    {
      entries := entries + [Param(key, value)];
    }

    method Set(key: string, value: string)
      modifies this
      ensures entries == SetEntry(old(entries), key, value)
    {
      entries := SetEntry(entries, key, value);
    }
  }

  // ---------------------------------------------------------------------------
  // Ids in the query string: `Number(value)` and `id.toString()`
  // ---------------------------------------------------------------------------

  /** The numbers an id value can read as: a non-negative integer, or `NaN`. */
  datatype Num = Num(n: nat) | NaN

  /** `Number(s)`: a string of digits (the empty string included) is its value; anything else is `NaN`. */
  function ToNumber(s: string): Num {
    if AllDigits(s) then Num(DigitsValue(s)) else NaN
  }

  /** `toString()`. */
  function NumText(x: Num): string {
    match x
    case Num(n) => NatText(n)
    case NaN => "NaN"
  }

  /** A written id reads back as itself. */
  lemma NumberOfText(x: Num)
    ensures ToNumber(NumText(x)) == x
  {
    if x.Num? {
      DigitsValueOfNatText(x.n);
    } else {
      assert !IsDigit(NumText(x)[0]);
    }
  }

  /** Different ids are written differently. */
  lemma NumTextInjective(x: Num, y: Num)
    requires NumText(x) == NumText(y)
    ensures x == y
  {
    NumberOfText(x);
    NumberOfText(y);
  }

  /** `getValues(key).map(Number)`. */
  function Parsed(values: seq<string>): (r: seq<Num>)
    ensures |r| == |values|
  {
    seq(|values|, i requires 0 <= i < |values| => ToNumber(values[i]))
  }

  /** The ids a list filter currently selects. */
  function Selected(entries: seq<Param>, key: string): seq<Num> {
    Parsed(Values(entries, key))
  }

  /** The pairs `forEach(id => params.append(key, id.toString()))` adds. */
  function Pairs(key: string, ids: seq<Num>): (r: seq<Param>)
    ensures |r| == |ids|
  {
    seq(|ids|, i requires 0 <= i < |ids| => Param(key, NumText(ids[i])))
  }

  lemma {:induction false} PairsValues(key: string, ids: seq<Num>, other: string)
    ensures Values(Pairs(key, ids), other) == if other == key then seq(|ids|, i requires 0 <= i < |ids| => NumText(ids[i])) else []
  {
    if ids != [] {
      assert Pairs(key, ids)[1..] == Pairs(key, ids[1..]);
      PairsValues(key, ids[1..], other);
    }
  }

  /** Reading the written pairs back gives the ids that were written. */
  lemma PairsReadBack(key: string, ids: seq<Num>)
    ensures Selected(Pairs(key, ids), key) == ids
  {
    PairsValues(key, ids, key);
    forall i | 0 <= i < |ids| ensures Selected(Pairs(key, ids), key)[i] == ids[i] {
      NumberOfText(ids[i]);
    }
  }

  // ---------------------------------------------------------------------------
  // handleAssigneeToggle / handleStatusToggle
  // ---------------------------------------------------------------------------

  const ASSIGNEE_KEY := "assignee_ids[]"
  const STATUS_KEY := "status_ids[]"

  /** `current.delete(x)` on the set's iteration order. */
  function Removed(ids: seq<Num>, x: Num): (r: seq<Num>)
    ensures forall y :: y in r <==> y in ids && y != x
  {
    if ids == [] then []
    else (if ids[0] == x then [] else [ids[0]]) + Removed(ids[1..], x)
  }

  /** `has(x) ? delete(x) : add(x)`: a present id leaves, an absent one joins at the end. */
  function Toggled(ids: seq<Num>, x: Num): seq<Num> {
    if x in ids then Removed(ids, x) else ids + [x]
  }

  /** The pairs after toggling `id` under `key`. */
  function ToggleParams(entries: seq<Param>, key: string, id: nat): seq<Param> {
    Without(entries, key) + Pairs(key, Toggled(Distinct(Selected(entries, key)), Num(id)))
  }

  /** The shared body of both toggle handlers, on the list named `key`. */
  method Toggle(searchParams: SearchParams, key: string, id: nat) returns (params: SearchParams)
    ensures fresh(params)
    ensures params.entries == ToggleParams(searchParams.entries, key, id)
  {
    var current := Distinct(Parsed(searchParams.GetAll(key)));
    if Num(id) in current {
      current := Removed(current, Num(id));
    } else {
      current := current + [Num(id)];
    }
    assert current == Toggled(Distinct(Selected(searchParams.entries, key)), Num(id));
    params := new SearchParams(searchParams.entries);
    params.Delete(key);
    AppendAll(params, key, current);
  }

  /** `ids.forEach(id => params.append(key, id.toString()))`. */
  method AppendAll(params: SearchParams, key: string, ids: seq<Num>)
    modifies params
    ensures params.entries == old(params.entries) + Pairs(key, ids)
  {
    var i := 0;
    while i < |ids|
      invariant 0 <= i <= |ids|
      invariant params.entries == old(params.entries) + Pairs(key, ids[..i])
    {
      PairsSnoc(key, ids, i);
      params.Append(key, NumText(ids[i]));
      i := i + 1;
    }
    assert ids[..i] == ids;
  }

  lemma PairsSnoc(key: string, ids: seq<Num>, i: nat)
    requires i < |ids|
    ensures Pairs(key, ids[..i + 1]) == Pairs(key, ids[..i]) + [Param(key, NumText(ids[i]))]
  {
  }

  method HandleAssigneeToggle(searchParams: SearchParams, userId: nat) returns (params: SearchParams)
    ensures fresh(params)
    ensures params.entries == ToggleParams(searchParams.entries, ASSIGNEE_KEY, userId)
  {
    params := Toggle(searchParams, ASSIGNEE_KEY, userId);
  }

  method HandleStatusToggle(searchParams: SearchParams, statusId: nat) returns (params: SearchParams)
    ensures fresh(params)
    ensures params.entries == ToggleParams(searchParams.entries, STATUS_KEY, statusId)
  {
    params := Toggle(searchParams, STATUS_KEY, statusId);
  }

  /** What the toggled list reads back as: the distinct selection with `id` toggled. */
  lemma ToggleReadBack(entries: seq<Param>, key: string, id: nat)
    ensures Selected(ToggleParams(entries, key, id), key) == Toggled(Distinct(Selected(entries, key)), Num(id))
  {
    var t := Toggled(Distinct(Selected(entries, key)), Num(id));
    WithoutValues(entries, key, key);
    ValuesAppend(Without(entries, key), Pairs(key, t), key);
    PairsReadBack(key, t);
  }

  /**
   * Toggling flips `id` in the selection and keeps every other selected id;
   * an id that joins goes after the ids already selected.
   */
  lemma ToggleFlips(entries: seq<Param>, key: string, id: nat)
    ensures Num(id) in Selected(ToggleParams(entries, key, id), key) <==> Num(id) !in Selected(entries, key)
    ensures forall x :: x != Num(id) ==>
      (x in Selected(ToggleParams(entries, key, id), key) <==> x in Selected(entries, key))
    ensures Num(id) !in Selected(entries, key) ==>
      Selected(ToggleParams(entries, key, id), key) == Distinct(Selected(entries, key)) + [Num(id)]
  {
    ToggleReadBack(entries, key, id);
  }

  /** Toggling the same id twice selects the same ids as before. */
  lemma ToggleTwiceRestores(entries: seq<Param>, key: string, id: nat)
    ensures forall x :: x in Selected(ToggleParams(ToggleParams(entries, key, id), key, id), key) <==> x in Selected(entries, key)
  {
    ToggleFlips(entries, key, id);
    ToggleFlips(ToggleParams(entries, key, id), key, id);
  }

  /** The list a toggle writes holds each id once, whatever duplicates the address had. */
  lemma ToggleWritesNoDuplicates(entries: seq<Param>, key: string, id: nat)
    ensures var vs := Values(ToggleParams(entries, key, id), key);
      forall i, j :: 0 <= i < j < |vs| ==> vs[i] != vs[j]
  {
    var d := Distinct(Selected(entries, key));
    var t := Toggled(d, Num(id));
    WithoutValues(entries, key, key);
    ValuesAppend(Without(entries, key), Pairs(key, t), key);
    assert Values(ToggleParams(entries, key, id), key) == [] + Values(Pairs(key, t), key);
    assert Unique(d);
    ToggledUnique(d, Num(id));
    UniquePairsValues(key, t);
  }

  /** Writing distinct ids gives distinct values. */
  lemma UniquePairsValues(key: string, ids: seq<Num>)
    requires Unique(ids)
    ensures var vs := Values(Pairs(key, ids), key);
      forall i, j :: 0 <= i < j < |vs| ==> vs[i] != vs[j]
  {
    PairsValues(key, ids, key);
    var vs := Values(Pairs(key, ids), key);
    forall i, j | 0 <= i < j < |vs| ensures vs[i] != vs[j] {
      assert vs[i] == NumText(ids[i]) && vs[j] == NumText(ids[j]);
      if vs[i] == vs[j] {
        NumTextInjective(ids[i], ids[j]);
      }
    }
  }

  /** No id occurs twice. */
  predicate Unique(ids: seq<Num>) {
    forall i, j :: 0 <= i < j < |ids| ==> ids[i] != ids[j]
  }

  /** Toggling keeps a list of distinct ids distinct. */
  lemma ToggledUnique(ids: seq<Num>, x: Num)
    requires Unique(ids)
    ensures Unique(Toggled(ids, x))
  {
    if x in ids {
      RemovedUnique(ids, x);
    } else {
      var t := ids + [x];
      forall i, j | 0 <= i < j < |t| ensures t[i] != t[j] {
        if j == |ids| {
          assert t[i] == ids[i];
        }
      }
    }
  }

  lemma {:induction false} RemovedUnique(ids: seq<Num>, x: Num)
    requires Unique(ids)
    ensures Unique(Removed(ids, x))
  {
    if ids != [] {
      assert Unique(ids[1..]) by {
        forall i, j | 0 <= i < j < |ids| - 1 ensures ids[1..][i] != ids[1..][j] {
          assert ids[1..][i] == ids[i + 1] && ids[1..][j] == ids[j + 1];
        }
      }
      RemovedUnique(ids[1..], x);
      var rest := Removed(ids[1..], x);
      var r := Removed(ids, x);
      if ids[0] != x {
        assert ids[0] !in ids[1..] by {
          forall k | 0 <= k < |ids| - 1 ensures ids[1..][k] != ids[0] {
            assert ids[1..][k] == ids[k + 1];
          }
        }
        assert r == [ids[0]] + rest;
        forall i, j | 0 <= i < j < |r| ensures r[i] != r[j] {
          assert r[j] == rest[j - 1] && rest[j - 1] in rest;
          if i > 0 {
            assert r[i] == rest[i - 1];
          } else {
            assert r[i] == ids[0] && rest[j - 1] in ids[1..];
          }
        }
      } else {
        assert r == [] + rest;
      }
    }
  }

  /** A toggle touches no other parameter. */
  lemma ToggleKeepsOtherKeys(entries: seq<Param>, key: string, id: nat, other: string)
    requires other != key
    ensures Values(ToggleParams(entries, key, id), other) == Values(entries, other)
  {
    var t := Toggled(Distinct(Selected(entries, key)), Num(id));
    WithoutValues(entries, key, other);
    ValuesAppend(Without(entries, key), Pairs(key, t), other);
    PairsValues(key, t, other);
  }

  // ---------------------------------------------------------------------------
  // handleDateChange
  // ---------------------------------------------------------------------------

  function ColumnName(c: TaskService.DateColumn): string {
    match c
    case CreatedAt => "created_at"
    case UpdatedAt => "updated_at"
    case DueDate => "due_date"
  }

  function EndName(e: TaskService.BoundEnd): string {
    match e
    case Start => "start"
    case End => "end"
  }

  /** The parameter a date input writes. */
  function DateParamKey(c: TaskService.DateColumn, e: TaskService.BoundEnd): string {
    if c == TaskService.CreatedAt then "date_created_" + EndName(e)
    else if c == TaskService.UpdatedAt then "date_updated_" + EndName(e)
    else ColumnName(c) + "_" + EndName(e)
  }

  /** Every date input writes the parameter the server reads that bound from. */
  lemma DateParamKeyMatchesServer(c: TaskService.DateColumn, e: TaskService.BoundEnd)
    ensures DateParamKey(c, e) == TaskService.FilterKey(c, e)
  {
    match (c, e)
    case (CreatedAt, Start) =>
      assert DateParamKey(c, e) == "date_created_start";
    case (CreatedAt, End) =>
      assert DateParamKey(c, e) == "date_created_end";
    case (UpdatedAt, Start) =>
      assert DateParamKey(c, e) == "date_updated_start";
    case (UpdatedAt, End) =>
      assert DateParamKey(c, e) == "date_updated_end";
    case (DueDate, Start) =>
      assert DateParamKey(c, e) == "due_date_start";
    case (DueDate, End) =>
      assert DateParamKey(c, e) == "due_date_end";
  }

  /** The pairs after a date input changes to `value`. */
  function DateChangeParams(entries: seq<Param>, c: TaskService.DateColumn, e: TaskService.BoundEnd, value: string): seq<Param> {
    if value != "" then SetEntry(entries, DateParamKey(c, e), value) else Without(entries, DateParamKey(c, e))
  }

  method HandleDateChange(searchParams: SearchParams, c: TaskService.DateColumn, e: TaskService.BoundEnd, value: string)
    returns (params: SearchParams)
    ensures fresh(params)
    ensures params.entries == DateChangeParams(searchParams.entries, c, e, value)
  {
    params := new SearchParams(searchParams.entries);
    var paramKey := DateParamKey(c, e);
    if value != "" {
      params.Set(paramKey, value);
    } else {
      params.Delete(paramKey);
    }
  }

  /**
   * After a date change the bound's parameter holds exactly the new value,
   * or is gone when the input was cleared; no other parameter changes.
   */
  lemma DateChangeEffect(entries: seq<Param>, c: TaskService.DateColumn, e: TaskService.BoundEnd, value: string, other: string)
    ensures Values(DateChangeParams(entries, c, e, value), DateParamKey(c, e)) == if value != "" then [value] else []
    ensures FirstValue(DateChangeParams(entries, c, e, value), DateParamKey(c, e)) == value
    ensures other != DateParamKey(c, e) ==> Values(DateChangeParams(entries, c, e, value), other) == Values(entries, other)
  {
    var k := DateParamKey(c, e);
    if value != "" {
      SetEntryValues(entries, k, value, k);
      SetEntryValues(entries, k, value, other);
    } else {
      WithoutValues(entries, k, k);
      WithoutValues(entries, k, other);
    }
  }

  // ---------------------------------------------------------------------------
  // hasFilters
  // ---------------------------------------------------------------------------

  /** The bound a date input shows: `get(key) || ''`. */
  function DateValue(entries: seq<Param>, c: TaskService.DateColumn, e: TaskService.BoundEnd): string {
    FirstValue(entries, DateParamKey(c, e))
  }

  /** `hasFilters`, the six date bounds spelled out as the code does. */
  predicate HasFilters(entries: seq<Param>)
    ensures HasFilters(entries) ==> entries != []
  {
    || |Selected(entries, ASSIGNEE_KEY)| > 0
    || |Selected(entries, STATUS_KEY)| > 0
    || FirstValue(entries, "date_created_start") != "" || FirstValue(entries, "date_created_end") != ""
    || FirstValue(entries, "date_updated_start") != "" || FirstValue(entries, "date_updated_end") != ""
    || FirstValue(entries, "due_date_start") != "" || FirstValue(entries, "due_date_end") != ""
  }

  /** The clear button shows exactly when some id is selected or some date input holds a value. */
  lemma HasFiltersIff(entries: seq<Param>)
    ensures HasFilters(entries) <==>
      || Values(entries, ASSIGNEE_KEY) != []
      || Values(entries, STATUS_KEY) != []
      || exists c, e :: DateValue(entries, c, e) != ""
  {
    if exists c, e :: DateValue(entries, c, e) != "" {
      var c, e :| DateValue(entries, c, e) != "";
      DateValueShowsFilters(entries, c, e);
    }
    if HasFilters(entries) && Values(entries, ASSIGNEE_KEY) == [] && Values(entries, STATUS_KEY) == [] {
      ListedDateIsSet(entries);
    }
  }

  /** A date input holding a value shows the clear button. */
  lemma DateValueShowsFilters(entries: seq<Param>, c: TaskService.DateColumn, e: TaskService.BoundEnd)
    requires DateValue(entries, c, e) != ""
    ensures HasFilters(entries)
  {
    match (c, e)
    case (CreatedAt, Start) =>
      assert DateParamKey(c, e) == "date_created_start";
    case (CreatedAt, End) =>
      assert DateParamKey(c, e) == "date_created_end";
    case (UpdatedAt, Start) =>
      assert DateParamKey(c, e) == "date_updated_start";
    case (UpdatedAt, End) =>
      assert DateParamKey(c, e) == "date_updated_end";
    case (DueDate, Start) =>
      assert DateParamKey(c, e) == "due_date_start";
    case (DueDate, End) =>
      assert DateParamKey(c, e) == "due_date_end";
  }

  /** Each of the six parameters `hasFilters` tests is the one some date input reads. */
  lemma ListedDateIsSet(entries: seq<Param>)
    requires || FirstValue(entries, "date_created_start") != "" || FirstValue(entries, "date_created_end") != ""
             || FirstValue(entries, "date_updated_start") != "" || FirstValue(entries, "date_updated_end") != ""
             || FirstValue(entries, "due_date_start") != "" || FirstValue(entries, "due_date_end") != ""
    ensures exists c, e :: DateValue(entries, c, e) != ""
  {
    var c, e;
    if FirstValue(entries, "date_created_start") != "" {
      c, e := TaskService.CreatedAt, TaskService.Start;
      assert DateParamKey(c, e) == "date_created_start";
    } else if FirstValue(entries, "date_created_end") != "" {
      c, e := TaskService.CreatedAt, TaskService.End;
      assert DateParamKey(c, e) == "date_created_end";
    } else if FirstValue(entries, "date_updated_start") != "" {
      c, e := TaskService.UpdatedAt, TaskService.Start;
      assert DateParamKey(c, e) == "date_updated_start";
    } else if FirstValue(entries, "date_updated_end") != "" {
      c, e := TaskService.UpdatedAt, TaskService.End;
      assert DateParamKey(c, e) == "date_updated_end";
    } else if FirstValue(entries, "due_date_start") != "" {
      c, e := TaskService.DueDate, TaskService.Start;
      assert DateParamKey(c, e) == "due_date_start";
    } else {
      c, e := TaskService.DueDate, TaskService.End;
      assert DateParamKey(c, e) == "due_date_end";
    }
    assert DateValue(entries, c, e) != "";
  }

  /** Selecting an id or entering a date always shows the clear button; the bare path of `clearFilters` never does. */
  lemma FiltersShow(entries: seq<Param>, key: string, id: nat, c: TaskService.DateColumn, e: TaskService.BoundEnd, value: string)
    requires key == ASSIGNEE_KEY || key == STATUS_KEY
    ensures Num(id) !in Selected(entries, key) ==> HasFilters(ToggleParams(entries, key, id))
    ensures value != "" ==> HasFilters(DateChangeParams(entries, c, e, value))
    ensures !HasFilters([])
  {
    if Num(id) !in Selected(entries, key) {
      ToggleFlips(entries, key, id);
      assert Num(id) in Selected(ToggleParams(entries, key, id), key);
    }
    if value != "" {
      DateChangeEffect(entries, c, e, value, "");
      DateValueShowsFilters(DateChangeParams(entries, c, e, value), c, e);
    }
  }
}
