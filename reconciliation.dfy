/**
  The reconciliation pass of `fetchData` (index.js:32-105) and the cache
  seeding of `updater` (index.js:133-144), as functions over row values.
  The imperative loop in updater.dfy is proved to compute exactly these.

  The change cache maps a row's `nummer` to the last `dumpert-link` handled
  for it. A pass walks the rows in order; the only way a pass stops early is
  an exception nothing catches: a rejected request, or a successful body
  whose first item or first media track is missing.
 */
module Reconciliation {
  import opened Wrappers
  import opened LinkResolver
  import opened MetadataMapper

  /** A spreadsheet row as a value: its key, its link and its output columns. */
  datatype RowData = RowData(nummer: string, link: string, out: Fields)

  /** What the API request for one URL yields. */
  datatype Response =
    | Rejected                              // request.get rejects: nothing catches it
    | Unparsable                            // JSON.parse throws
    | Parsed(success: bool, items: seq<Item>)

  /** The calls a pass makes to the outside world, in order. */
  datatype Call = Fetch(url: string) | Save(nummer: string)

  /** How the loop body ended for one row. */
  datatype Status = Skipped | Unresolvable | ParseFailed | NoSuccess | Updated | Aborted

  const ApiBase: string := "https://api.dumpert.nl/mobile_api/json/info/"

  /** The URL requested for a media id (index.js:47). */
  function ApiUrl(id: string): string {
    ApiBase + id + "/"
  }

  // The cache is the object literal `{}` (index.js:18): the map holds its own
  // properties, and a name it does not hold reads through to Object.prototype.

  /** The properties `{}` inherits from Object.prototype; each reads as a truthy value that is not a string. */
  const InheritedKeys: set<string> := {
    "__proto__", "constructor", "hasOwnProperty", "isPrototypeOf", "propertyIsEnumerable", "toString",
    "toLocaleString", "valueOf", "__defineGetter__", "__defineSetter__", "__lookupGetter__", "__lookupSetter__"}

  /** The one inherited accessor: assigning a string through it is ignored. */
  const ProtoKey: string := "__proto__"

  /** `cache[key]` is truthy: an own entry that is not the empty string, or an inherited property. */
  predicate HasEntry(cache: map<string, string>, key: string) {
    if key in cache then cache[key] != "" else key in InheritedKeys
  }

  /** `cache[key] = value`: a new or updated own entry, except through the inherited `__proto__` setter. */
  function Assign(cache: map<string, string>, key: string, value: string): map<string, string> {
    if key == ProtoKey && key !in cache then cache else cache[key := value]
  }

  /** The skip test of index.js:36: truthy and `===` the link, which only an own string entry can be. */
  predicate IsCached(cache: map<string, string>, row: RowData) {
    HasEntry(cache, row.nummer) && row.nummer in cache && cache[row.nummer] == row.link
  }

  /** A successful body whose `items[0]` or `items[0].media[0]` is missing throws a TypeError. */
  predicate Crashes(response: Response) {
    response.Parsed? && response.success && (response.items == [] || response.items[0].media == [])
  }

  /** The responses that end the whole pass. */
  predicate Aborts(response: Response) {
    response.Rejected? || Crashes(response)
  }

  /** The response the row's link leads to, when the link resolves. */
  function ResponseFor(row: RowData, api: string -> Response): Option<Response> {
    match IdFromUrl(row.link)
    case None => None
    case Some(id) => Some(api(ApiUrl(id)))
  }

  datatype StepResult = StepResult(cache: map<string, string>, row: RowData, calls: seq<Call>, status: Status)

  /** The loop body of fetchData for one row (index.js:34-104). */
  function Step(cache: map<string, string>, row: RowData, api: string -> Response, renderDate: string -> string)
    : StepResult
  {
    if IsCached(cache, row) then StepResult(cache, row, [], Skipped)
    else Resolved(cache, row, IdFromUrl(row.link), api, renderDate)
  }

  /** The loop body after the cache check, once the link has been resolved to `id` (index.js:41-104). */
  function Resolved(cache: map<string, string>, row: RowData, id: Option<string>, api: string -> Response,
                    renderDate: string -> string): StepResult
  {
    match id
    case None => StepResult(Assign(cache, row.nummer, row.link), row, [], Unresolvable)
    case Some(id) =>
      var fetch := [Fetch(ApiUrl(id))];
      var advanced := Assign(cache, row.nummer, row.link);
      match api(ApiUrl(id))
      case Rejected => StepResult(cache, row, fetch, Aborted)
      case Unparsable => StepResult(advanced, row, fetch, ParseFailed)
      case Parsed(success, items) =>
        if !success then StepResult(advanced, row, fetch, NoSuccess)
        else if items == [] then StepResult(cache, row, fetch, Aborted)
        else if items[0].media == [] then
          StepResult(cache, row.(out := MapHeader(items[0], renderDate, row.out)), fetch, Aborted)
        else
          StepResult(advanced, row.(out := MapItem(items[0], renderDate, row.out)), fetch + [Save(row.nummer)], Updated)
  }

  /** What the loop body does after the cache check, for any outcome of the resolver. */
  lemma ResolvedRules(cache: map<string, string>, row: RowData, id: Option<string>, api: string -> Response,
                      renderDate: string -> string)
    ensures var r := Resolved(cache, row, id, api, renderDate);
      && r.status != Skipped
      && (r.status != Aborted ==> r.cache == Assign(cache, row.nummer, row.link))
      && (r.status == Aborted ==> r.cache == cache)
      && r.row.nummer == row.nummer && r.row.link == row.link
      && (r.status in {Unresolvable, ParseFailed, NoSuccess} ==> r.row == row)
      && (r.status == Unresolvable <==> id.None?)
      && (id.Some? ==> r.calls != [] && r.calls[0] == Fetch(ApiUrl(id.value)))
      && (r.status == Unresolvable <==> r.calls == [])
      && (r.status == Aborted <==> id.Some? && Aborts(api(ApiUrl(id.value))))
      && (r.status == Updated ==>
            var response := api(ApiUrl(id.value));
            && response.Parsed? && response.success && response.items != [] && response.items[0].media != []
            && r.row.out == MapItem(response.items[0], renderDate, row.out)
            && r.calls == [Fetch(ApiUrl(id.value)), Save(row.nummer)])
  {
  }

  /** The skip rule (index.js:36-38): a cached row is left alone, with no request and no change. */
  lemma StepSkipRule(cache: map<string, string>, row: RowData, api: string -> Response, renderDate: string -> string)
    ensures var r := Step(cache, row, api, renderDate);
      && (r.status == Skipped <==> IsCached(cache, row))
      && (r.status == Skipped ==> r.cache == cache && r.row == row && r.calls == [])
  {
    ResolvedRules(cache, row, IdFromUrl(row.link), api, renderDate);
  }

  /**
    The cache rule: every row the pass gets past leaves its current link in
    the cache; an aborted row leaves the cache as it was.
   */
  lemma StepCacheRule(cache: map<string, string>, row: RowData, api: string -> Response, renderDate: string -> string)
    ensures var r := Step(cache, row, api, renderDate);
      && (r.status != Aborted ==> r.cache == Assign(cache, row.nummer, row.link))
      && (r.status == Aborted ==> r.cache == cache)
  {
    if IsCached(cache, row) {
      assert cache[row.nummer := row.link] == cache;
    }
    ResolvedRules(cache, row, IdFromUrl(row.link), api, renderDate);
  }

  /** The key and the link are never written, and a row that is not updated is not written at all. */
  lemma StepRowRule(cache: map<string, string>, row: RowData, api: string -> Response, renderDate: string -> string)
    ensures var r := Step(cache, row, api, renderDate);
      && r.row.nummer == row.nummer && r.row.link == row.link
      && (r.status in {Skipped, Unresolvable, ParseFailed, NoSuccess} ==> r.row == row)
  {
    ResolvedRules(cache, row, IdFromUrl(row.link), api, renderDate);
  }

  /** A row not in the cache is fetched exactly when its link resolves, from the URL of its identifier. */
  lemma StepFetchRule(cache: map<string, string>, row: RowData, api: string -> Response, renderDate: string -> string)
    ensures var r := Step(cache, row, api, renderDate);
      && (!IsCached(cache, row) ==>
            && (r.status == Unresolvable <==> IdFromUrl(row.link).None?)
            && (IdFromUrl(row.link).Some? ==> r.calls != [] && r.calls[0] == Fetch(ApiUrl(IdFromUrl(row.link).value))))
      && (r.status in {Skipped, Unresolvable} <==> r.calls == [])
  {
    ResolvedRules(cache, row, IdFromUrl(row.link), api, renderDate);
  }

  /** Only an uncaught exception ends the pass: a rejected request or a missing first item or media track. */
  lemma StepAbortRule(cache: map<string, string>, row: RowData, api: string -> Response, renderDate: string -> string)
    ensures var r := Step(cache, row, api, renderDate);
      r.status == Aborted <==> !IsCached(cache, row) && ResponseFor(row, api).Some? && Aborts(ResponseFor(row, api).value)
  {
    ResolvedRules(cache, row, IdFromUrl(row.link), api, renderDate);
  }

  /** An updated row carries the mapped item and is saved once, after its request. */
  lemma StepUpdateRule(cache: map<string, string>, row: RowData, api: string -> Response, renderDate: string -> string)
    ensures var r := Step(cache, row, api, renderDate);
      r.status == Updated ==>
        var response := ResponseFor(row, api).value;
        && response.Parsed? && response.success && response.items != [] && response.items[0].media != []
        && r.row.out == MapItem(response.items[0], renderDate, row.out)
        && r.calls == [Fetch(ApiUrl(IdFromUrl(row.link).value)), Save(row.nummer)]
  {
    ResolvedRules(cache, row, IdFromUrl(row.link), api, renderDate);
  }

  /** Two caches agree on one key: both lack it, or both map it to the same link. */
  predicate SameEntry(c1: map<string, string>, c2: map<string, string>, key: string) {
    (key in c1 <==> key in c2) && (key in c1 ==> c1[key] == c2[key])
  }

  /** A row's outcome depends on the cache only through the entry under its own nummer. */
  lemma StepLocal(c1: map<string, string>, c2: map<string, string>, row: RowData, api: string -> Response,
                  renderDate: string -> string)
    requires SameEntry(c1, c2, row.nummer)
    ensures var r1, r2 := Step(c1, row, api, renderDate), Step(c2, row, api, renderDate);
      r1.status == r2.status && r1.row == r2.row && r1.calls == r2.calls
  {
    ResolvedRules(c1, row, IdFromUrl(row.link), api, renderDate);
    ResolvedRules(c2, row, IdFromUrl(row.link), api, renderDate);
    ResolvedIgnoresCache(c1, c2, row, IdFromUrl(row.link), api, renderDate);
  }

  lemma ResolvedIgnoresCache(c1: map<string, string>, c2: map<string, string>, row: RowData, id: Option<string>,
                             api: string -> Response, renderDate: string -> string)
    ensures var r1, r2 := Resolved(c1, row, id, api, renderDate), Resolved(c2, row, id, api, renderDate);
      r1.status == r2.status && r1.row == r2.row && r1.calls == r2.calls
  {
  }

  // ---------------------------------------------------------------------------
  // The pass: the loop of fetchData as a fold of the row step

  /** The outcome of a pass: the cache and rows after it, its calls, one status per row reached. */
  datatype PassResult = PassResult(
    cache: map<string, string>,
    rows: seq<RowData>,
    calls: seq<Call>,
    statuses: seq<Status>,
    aborted: bool)

  /** A turn of the loop body as a value: the cache and the row before it, to what it does. */
  type StepFn = (map<string, string>, RowData) -> StepResult

  function RowStep(api: string -> Response, renderDate: string -> string): StepFn {
    (cache, row) => Step(cache, row, api, renderDate)
  }

  /** Running `step` over the rows in order, stopping after the first aborted row. */
  function Walk(cache: map<string, string>, rows: seq<RowData>, step: StepFn): PassResult
    decreases |rows|
  {
    if rows == [] then PassResult(cache, [], [], [], false)
    else
      var s := step(cache, rows[0]);
      if s.status == Aborted then PassResult(s.cache, [s.row] + rows[1..], s.calls, [Aborted], true)
      else
        var rest := Walk(s.cache, rows[1..], step);
        PassResult(rest.cache, [s.row] + rest.rows, s.calls + rest.calls, [s.status] + rest.statuses, rest.aborted)
  }

  /** fetchData over a list of rows (index.js:32-105). */
  function Pass(cache: map<string, string>, rows: seq<RowData>, api: string -> Response, renderDate: string -> string)
    : PassResult
  {
    Walk(cache, rows, RowStep(api, renderDate))
  }

  /** The state part way through a walk, followed by the rest of the walk: equal to the whole walk. */
  function Continue(cache: map<string, string>, done: seq<RowData>, calls: seq<Call>, statuses: seq<Status>,
                    rest: seq<RowData>, step: StepFn): PassResult
  {
    var p := Walk(cache, rest, step);
    PassResult(p.cache, done + p.rows, calls + p.calls, statuses + p.statuses, p.aborted)
  }

  /** Taking one more row out of the rest of a walk that does not stop there. */
  lemma ContinueStep(cache: map<string, string>, done: seq<RowData>, calls: seq<Call>, statuses: seq<Status>,
                     rest: seq<RowData>, step: StepFn)
    requires rest != [] && step(cache, rest[0]).status != Aborted
    ensures var s := step(cache, rest[0]);
      Continue(cache, done, calls, statuses, rest, step) ==
      Continue(s.cache, done + [s.row], calls + s.calls, statuses + [s.status], rest[1..], step)
  {
    var s := step(cache, rest[0]);
    var p := Walk(s.cache, rest[1..], step);
    assert done + ([s.row] + p.rows) == (done + [s.row]) + p.rows;
    assert calls + (s.calls + p.calls) == (calls + s.calls) + p.calls;
    assert statuses + ([s.status] + p.statuses) == (statuses + [s.status]) + p.statuses;
  }

  /** Taking the row at which a walk stops. */
  lemma ContinueAbort(cache: map<string, string>, done: seq<RowData>, calls: seq<Call>, statuses: seq<Status>,
                      rest: seq<RowData>, step: StepFn)
    requires rest != [] && step(cache, rest[0]).status == Aborted
    ensures var s := step(cache, rest[0]);
      Continue(cache, done, calls, statuses, rest, step) ==
      PassResult(s.cache, done + [s.row] + rest[1..], calls + s.calls, statuses + [Aborted], true)
  {
    var s := step(cache, rest[0]);
    assert done + ([s.row] + rest[1..]) == done + [s.row] + rest[1..];
  }

  /** Before the first row, continuing is the whole walk. */
  lemma ContinueFromStart(cache: map<string, string>, rows: seq<RowData>, step: StepFn)
    ensures Continue(cache, [], [], [], rows[0..], step) == Walk(cache, rows, step)
  {
    assert rows[0..] == rows;
  }

  /** After the last row, continuing adds nothing. */
  lemma ContinueAtEnd(cache: map<string, string>, done: seq<RowData>, calls: seq<Call>, statuses: seq<Status>,
                      rest: seq<RowData>, step: StepFn)
    requires rest == []
    ensures Continue(cache, done, calls, statuses, rest, step) == PassResult(cache, done, calls, statuses, false)
  {
    assert done + [] == done && calls + [] == calls && statuses + [] == statuses;
  }

  // The rules of the row step that the pass-level properties rest on.

  ghost predicate KeepsKeys(step: StepFn) {
    forall c, r :: step(c, r).row.nummer == r.nummer && step(c, r).row.link == r.link
  }

  ghost predicate AdvancesCache(step: StepFn) {
    forall c, r :: (step(c, r).status != Aborted ==> step(c, r).cache == Assign(c, r.nummer, r.link)) &&
                   (step(c, r).status == Aborted ==> step(c, r).cache == c)
  }

  ghost predicate SkipsCached(step: StepFn) {
    forall c, r :: IsCached(c, r) ==> step(c, r) == StepResult(c, r, [], Skipped)
  }

  ghost predicate Local(step: StepFn) {
    forall c1, c2, r: RowData :: SameEntry(c1, c2, r.nummer) ==>
      step(c1, r).status == step(c2, r).status && step(c1, r).row == step(c2, r).row
  }

  /** The row step of fetchData obeys all four rules. */
  lemma RowStepRules(api: string -> Response, renderDate: string -> string)
    ensures var step := RowStep(api, renderDate);
      KeepsKeys(step) && AdvancesCache(step) && SkipsCached(step) && Local(step)
  {
    var step := RowStep(api, renderDate);
    forall c, r ensures step(c, r).row.nummer == r.nummer && step(c, r).row.link == r.link {
      StepRowRule(c, r, api, renderDate);
    }
    forall c, r ensures (step(c, r).status != Aborted ==> step(c, r).cache == Assign(c, r.nummer, r.link)) &&
                        (step(c, r).status == Aborted ==> step(c, r).cache == c) {
      StepCacheRule(c, r, api, renderDate);
    }
    forall c, r | IsCached(c, r) ensures step(c, r) == StepResult(c, r, [], Skipped) {
      StepSkipRule(c, r, api, renderDate);
    }
    forall c1, c2, r: RowData | SameEntry(c1, c2, r.nummer)
      ensures step(c1, r).status == step(c2, r).status && step(c1, r).row == step(c2, r).row
    {
      StepLocal(c1, c2, r, api, renderDate);
    }
  }

  /** The nummers of a list of rows. */
  function Keys(rows: seq<RowData>): set<string> {
    set k | 0 <= k < |rows| :: rows[k].nummer
  }

  lemma KeysOfTail(rows: seq<RowData>)
    requires rows != []
    ensures Keys(rows) == {rows[0].nummer} + Keys(rows[1..])
  {
    assert forall k :: 0 < k < |rows| ==> rows[k] == rows[1..][k - 1];
  }

  /** `rows[k]` is the last row with its nummer. */
  predicate LastOfKey(rows: seq<RowData>, k: int) {
    0 <= k < |rows| && forall j :: k < j < |rows| ==> rows[j].nummer != rows[k].nummer
  }

  predicate UniqueKeys(rows: seq<RowData>) {
    forall i, j :: 0 <= i < j < |rows| ==> rows[i].nummer != rows[j].nummer
  }

  /** The statuses of `n` skipped rows. */
  function Skips(n: nat): seq<Status> {
    seq(n, _ => Skipped)
  }

  // Properties of any walk, under the rules its step obeys.

  lemma {:induction false} WalkKeepsKeys(cache: map<string, string>, rows: seq<RowData>, step: StepFn)
    requires KeepsKeys(step)
    ensures var p := Walk(cache, rows, step);
      && |p.rows| == |rows|
      && forall k :: 0 <= k < |rows| ==> p.rows[k].nummer == rows[k].nummer && p.rows[k].link == rows[k].link
    decreases |rows|
  {
    if rows != [] {
      var s := step(cache, rows[0]);
      var p := Walk(cache, rows, step);
      var tail := if s.status == Aborted then rows[1..] else Walk(s.cache, rows[1..], step).rows;
      if s.status != Aborted {
        WalkKeepsKeys(s.cache, rows[1..], step);
      }
      assert p.rows == [s.row] + tail;
      forall k | 0 < k < |rows| ensures p.rows[k].nummer == rows[k].nummer && p.rows[k].link == rows[k].link {
        assert p.rows[k] == tail[k - 1] && rows[k] == rows[1..][k - 1];
      }
    }
  }

  lemma {:induction false} WalkStatuses(cache: map<string, string>, rows: seq<RowData>, step: StepFn)
    ensures var p := Walk(cache, rows, step);
      && |p.statuses| <= |rows|
      && (!p.aborted ==> |p.statuses| == |rows|)
      && (p.aborted <==> p.statuses != [] && p.statuses[|p.statuses| - 1] == Aborted)
      && (forall k :: 0 <= k < |p.statuses| - 1 ==> p.statuses[k] != Aborted)
    decreases |rows|
  {
    if rows != [] {
      var s := step(cache, rows[0]);
      if s.status != Aborted {
        WalkStatuses(s.cache, rows[1..], step);
        var rest := Walk(s.cache, rows[1..], step);
        assert Walk(cache, rows, step).statuses == [s.status] + rest.statuses;
      }
    }
  }

  lemma {:induction false} WalkLeavesUnreached(cache: map<string, string>, rows: seq<RowData>, step: StepFn)
    ensures var p := Walk(cache, rows, step);
      |p.rows| == |rows| ==> forall k :: |p.statuses| <= k < |rows| ==> p.rows[k] == rows[k]
    decreases |rows|
  {
    if rows != [] {
      var s := step(cache, rows[0]);
      var p := Walk(cache, rows, step);
      if s.status != Aborted {
        WalkLeavesUnreached(s.cache, rows[1..], step);
        var rest := Walk(s.cache, rows[1..], step);
        assert p.rows == [s.row] + rest.rows && p.statuses == [s.status] + rest.statuses;
        forall k | |p.statuses| <= k < |rows| && |p.rows| == |rows| ensures p.rows[k] == rows[k] {
          assert p.rows[k] == rest.rows[k - 1] && rows[k] == rows[1..][k - 1];
        }
      } else {
        assert forall k :: 1 <= k < |rows| ==> p.rows[k] == rows[1..][k - 1];
      }
    }
  }

  lemma {:induction false} WalkFrame(cache: map<string, string>, rows: seq<RowData>, step: StepFn)
    requires AdvancesCache(step)
    ensures var p := Walk(cache, rows, step);
      forall key :: key !in Keys(rows) ==> SameEntry(cache, p.cache, key)
    decreases |rows|
  {
    if rows != [] {
      var s := step(cache, rows[0]);
      KeysOfTail(rows);
      if s.status != Aborted {
        WalkFrame(s.cache, rows[1..], step);
      }
    }
  }

  lemma {:induction false} WalkCacheAdvances(cache: map<string, string>, rows: seq<RowData>, step: StepFn)
    requires AdvancesCache(step)
    ensures var p := Walk(cache, rows, step);
      !p.aborted ==> forall k :: LastOfKey(rows, k) && rows[k].nummer != ProtoKey ==>
        rows[k].nummer in p.cache && p.cache[rows[k].nummer] == rows[k].link
    decreases |rows|
  {
    if rows != [] {
      var s := step(cache, rows[0]);
      var p := Walk(cache, rows, step);
      if s.status != Aborted {
        var rest := Walk(s.cache, rows[1..], step);
        WalkCacheAdvances(s.cache, rows[1..], step);
        WalkFrame(s.cache, rows[1..], step);
        forall k | LastOfKey(rows, k) && rows[k].nummer != ProtoKey && !p.aborted
          ensures rows[k].nummer in p.cache && p.cache[rows[k].nummer] == rows[k].link
        {
          if k == 0 {
            assert rows[0].nummer !in Keys(rows[1..]) by {
              forall j | 0 <= j < |rows[1..]| ensures rows[1..][j].nummer != rows[0].nummer {
                assert rows[1..][j] == rows[j + 1];
              }
            }
            assert SameEntry(s.cache, rest.cache, rows[0].nummer);
          } else {
            assert rows[k] == rows[1..][k - 1];
            assert LastOfKey(rows[1..], k - 1) by {
              forall j | k - 1 < j < |rows[1..]| ensures rows[1..][j].nummer != rows[1..][k - 1].nummer {
                assert rows[1..][j] == rows[j + 1];
              }
            }
          }
        }
      }
    }
  }

  lemma {:induction false} WalkNeverStoresProto(cache: map<string, string>, rows: seq<RowData>, step: StepFn)
    requires AdvancesCache(step)
    requires ProtoKey !in cache
    ensures ProtoKey !in Walk(cache, rows, step).cache
    decreases |rows|
  {
    if rows != [] {
      var s := step(cache, rows[0]);
      assert ProtoKey !in s.cache;
      if s.status != Aborted {
        WalkNeverStoresProto(s.cache, rows[1..], step);
      }
    }
  }

  lemma {:induction false} WalkOverCached(cache: map<string, string>, rows: seq<RowData>, step: StepFn)
    requires SkipsCached(step)
    requires forall k :: 0 <= k < |rows| ==> IsCached(cache, rows[k])
    ensures Walk(cache, rows, step) == PassResult(cache, rows, [], Skips(|rows|), false)
    decreases |rows|
  {
    if rows != [] {
      assert IsCached(cache, rows[0]);
      assert step(cache, rows[0]) == StepResult(cache, rows[0], [], Skipped);
      assert forall k :: 0 <= k < |rows| - 1 ==> rows[1..][k] == rows[k + 1];
      WalkOverCached(cache, rows[1..], step);
      assert [rows[0]] + rows[1..] == rows;
      assert [Skipped] + Skips(|rows| - 1) == Skips(|rows|);
    }
  }

  lemma {:induction false} WalkRowAt(cache: map<string, string>, rows: seq<RowData>, step: StepFn, k: nat)
    requires AdvancesCache(step) && Local(step) && UniqueKeys(rows)
    requires k < |rows| && k < |Walk(cache, rows, step).statuses|
    ensures var p, s := Walk(cache, rows, step), step(cache, rows[k]);
      k < |p.rows| && p.statuses[k] == s.status && p.rows[k] == s.row
    decreases |rows|
  {
    var s := step(cache, rows[0]);
    if k > 0 {
      assert s.status != Aborted;
      var rest := Walk(s.cache, rows[1..], step);
      assert UniqueKeys(rows[1..]) by {
        forall i, j | 0 <= i < j < |rows[1..]| ensures rows[1..][i].nummer != rows[1..][j].nummer {
          assert rows[1..][i] == rows[i + 1] && rows[1..][j] == rows[j + 1];
        }
      }
      WalkRowAt(s.cache, rows[1..], step, k - 1);
      assert rows[1..][k - 1] == rows[k];
      assert rows[k].nummer != rows[0].nummer;
      assert SameEntry(s.cache, cache, rows[k].nummer);
    }
  }

  lemma {:induction false} WalkCompletes(cache: map<string, string>, rows: seq<RowData>, step: StepFn)
    requires forall c, k :: 0 <= k < |rows| ==> step(c, rows[k]).status != Aborted
    ensures var p := Walk(cache, rows, step);
      !p.aborted && |p.statuses| == |rows| && forall k :: 0 <= k < |p.statuses| ==> p.statuses[k] != Aborted
    decreases |rows|
  {
    if rows != [] {
      var s := step(cache, rows[0]);
      assert forall c, k :: 0 <= k < |rows| - 1 ==> step(c, rows[1..][k]) == step(c, rows[k + 1]);
      WalkCompletes(s.cache, rows[1..], step);
    }
  }

  // Properties of fetchData's pass.

  /** A pass writes no key and no link, and keeps the number of rows. */
  lemma PassKeepsKeys(cache: map<string, string>, rows: seq<RowData>, api: string -> Response,
                      renderDate: string -> string)
    ensures var p := Pass(cache, rows, api, renderDate);
      && |p.rows| == |rows|
      && forall k :: 0 <= k < |rows| ==> p.rows[k].nummer == rows[k].nummer && p.rows[k].link == rows[k].link
  {
    RowStepRules(api, renderDate);
    WalkKeepsKeys(cache, rows, RowStep(api, renderDate));
  }

  /**
    The statuses are those of a prefix of the rows: all of them when the pass
    completes, and a pass stops exactly after its first aborted row.
   */
  lemma PassStatuses(cache: map<string, string>, rows: seq<RowData>, api: string -> Response,
                     renderDate: string -> string)
    ensures var p := Pass(cache, rows, api, renderDate);
      && |p.statuses| <= |rows|
      && (!p.aborted ==> |p.statuses| == |rows|)
      && (p.aborted <==> p.statuses != [] && p.statuses[|p.statuses| - 1] == Aborted)
      && (forall k :: 0 <= k < |p.statuses| - 1 ==> p.statuses[k] != Aborted)
  {
    WalkStatuses(cache, rows, RowStep(api, renderDate));
  }

  /** Rows the pass never reaches, because it stopped before them, keep their values. */
  lemma PassLeavesUnreached(cache: map<string, string>, rows: seq<RowData>, api: string -> Response,
                            renderDate: string -> string)
    ensures var p := Pass(cache, rows, api, renderDate);
      |p.rows| == |rows| && forall k :: |p.statuses| <= k < |rows| ==> p.rows[k] == rows[k]
  {
    PassKeepsKeys(cache, rows, api, renderDate);
    WalkLeavesUnreached(cache, rows, RowStep(api, renderDate));
  }

  /** The cache entries of nummers that no row carries are left as they were. */
  lemma PassFrame(cache: map<string, string>, rows: seq<RowData>, api: string -> Response,
                  renderDate: string -> string)
    ensures var p := Pass(cache, rows, api, renderDate);
      forall key :: key !in Keys(rows) ==> SameEntry(cache, p.cache, key)
  {
    RowStepRules(api, renderDate);
    WalkFrame(cache, rows, RowStep(api, renderDate));
  }

  /**
    After a pass that completes, the cache holds for every nummer the link of
    the last row carrying it.
   */
  lemma PassCacheAdvances(cache: map<string, string>, rows: seq<RowData>, api: string -> Response,
                          renderDate: string -> string)
    ensures var p := Pass(cache, rows, api, renderDate);
      !p.aborted ==> forall k :: LastOfKey(rows, k) && rows[k].nummer != ProtoKey ==>
        rows[k].nummer in p.cache && p.cache[rows[k].nummer] == rows[k].link
  {
    RowStepRules(api, renderDate);
    WalkCacheAdvances(cache, rows, RowStep(api, renderDate));
  }

  /** No pass ever stores an entry under `__proto__`. */
  lemma PassNeverStoresProto(cache: map<string, string>, rows: seq<RowData>, api: string -> Response,
                             renderDate: string -> string)
    requires ProtoKey !in cache
    ensures ProtoKey !in Pass(cache, rows, api, renderDate).cache
  {
    RowStepRules(api, renderDate);
    WalkNeverStoresProto(cache, rows, RowStep(api, renderDate));
  }

  /**
    A row whose nummer is `__proto__` is never skipped, so every pass resolves
    its link again and, when it resolves, requests the API again.
   */
  lemma ProtoRowNeverSkipped(cache: map<string, string>, row: RowData, api: string -> Response,
                             renderDate: string -> string)
    requires row.nummer == ProtoKey && ProtoKey !in cache
    ensures var r := Step(cache, row, api, renderDate);
      && r.status != Skipped
      && r.cache == cache
      && (IdFromUrl(row.link).Some? ==> r.calls != [] && r.calls[0] == Fetch(ApiUrl(IdFromUrl(row.link).value)))
  {
    StepSkipRule(cache, row, api, renderDate);
    StepCacheRule(cache, row, api, renderDate);
    StepFetchRule(cache, row, api, renderDate);
  }

  /** A pass over rows that are all cached skips every one: no call, nothing changes. */
  lemma PassOverCachedRows(cache: map<string, string>, rows: seq<RowData>, api: string -> Response,
                           renderDate: string -> string)
    requires forall k :: 0 <= k < |rows| ==> IsCached(cache, rows[k])
    ensures Pass(cache, rows, api, renderDate) == PassResult(cache, rows, [], Skips(|rows|), false)
  {
    RowStepRules(api, renderDate);
    WalkOverCached(cache, rows, RowStep(api, renderDate));
  }

  /**
    With distinct nummers, every row the pass reaches ends exactly as if it
    were the only row: a parse failure or an unsuccessful body in one row does
    not touch another.
   */
  lemma PassRowAt(cache: map<string, string>, rows: seq<RowData>, api: string -> Response,
                  renderDate: string -> string, k: nat)
    requires UniqueKeys(rows)
    requires k < |rows| && k < |Pass(cache, rows, api, renderDate).statuses|
    ensures var p, s := Pass(cache, rows, api, renderDate), Step(cache, rows[k], api, renderDate);
      k < |p.rows| && p.statuses[k] == s.status && p.rows[k] == s.row
  {
    RowStepRules(api, renderDate);
    WalkRowAt(cache, rows, RowStep(api, renderDate), k);
  }

  /** Unless some row's response is a rejection or a crashing body, the pass reaches every row. */
  lemma PassCompletes(cache: map<string, string>, rows: seq<RowData>, api: string -> Response,
                      renderDate: string -> string)
    requires forall k :: 0 <= k < |rows| && ResponseFor(rows[k], api).Some? ==> !Aborts(ResponseFor(rows[k], api).value)
    ensures var p := Pass(cache, rows, api, renderDate);
      !p.aborted && |p.statuses| == |rows| && forall k :: 0 <= k < |p.statuses| ==> p.statuses[k] != Aborted
  {
    var step := RowStep(api, renderDate);
    forall c, k | 0 <= k < |rows| ensures step(c, rows[k]).status != Aborted {
      StepAbortRule(c, rows[k], api, renderDate);
    }
    WalkCompletes(cache, rows, step);
  }

  /**
    A second pass right after one that completed, over the rows it wrote, with
    distinct nummers and non-empty links, skips every row and calls nothing.
   */
  lemma SecondPassSkipsAll(cache: map<string, string>, rows: seq<RowData>, api: string -> Response,
                           renderDate: string -> string)
    requires UniqueKeys(rows)
    requires forall k :: 0 <= k < |rows| ==> rows[k].link != "" && rows[k].nummer != ProtoKey
    requires !Pass(cache, rows, api, renderDate).aborted
    ensures var p := Pass(cache, rows, api, renderDate);
      Pass(p.cache, p.rows, api, renderDate) == PassResult(p.cache, p.rows, [], Skips(|rows|), false)
  {
    var p := Pass(cache, rows, api, renderDate);
    PassKeepsKeys(cache, rows, api, renderDate);
    PassCacheAdvances(cache, rows, api, renderDate);
    forall k | 0 <= k < |p.rows| ensures IsCached(p.cache, p.rows[k]) {
      assert LastOfKey(rows, k);
    }
    PassOverCachedRows(p.cache, p.rows, api, renderDate);
  }

  // ---------------------------------------------------------------------------
  // Seeding (index.js:133-139) and the whole update (index.js:133-144)

  const HttpsScheme: string := "https://"

  /** The filter before fetchData: a non-empty link whose first eight characters are `https://`. */
  predicate IsFetchable(row: RowData) {
    row.link != "" && StartsWith(row.link, HttpsScheme)
  }

  /** The seeding filter: a fetchable link, no truthy cache entry, and a non-empty lengte. */
  predicate SeedEligible(cache: map<string, string>, row: RowData) {
    IsFetchable(row) && !HasEntry(cache, row.nummer) && row.out.lengte != ""
  }

  /** `rows.filter(fetchable)`. */
  function FetchableRows(rows: seq<RowData>): (r: seq<RowData>)
    ensures forall x :: x in r <==> x in rows && IsFetchable(x)
    ensures |r| <= |rows|
  {
    if rows == [] then []
    else FetchableRows(rows[..|rows| - 1]) + (if IsFetchable(rows[|rows| - 1]) then [rows[|rows| - 1]] else [])
  }

  /** `rows.filter(seedEligible)`, evaluated against the cache as it was before any seed is written. */
  function SeedCandidates(cache: map<string, string>, rows: seq<RowData>): (r: seq<RowData>)
    ensures forall x :: x in r <==> x in rows && SeedEligible(cache, x)
  {
    if rows == [] then []
    else SeedCandidates(cache, rows[..|rows| - 1]) +
         (if SeedEligible(cache, rows[|rows| - 1]) then [rows[|rows| - 1]] else [])
  }

  lemma FetchableRowsSnoc(rows: seq<RowData>, x: RowData)
    ensures FetchableRows(rows + [x]) == FetchableRows(rows) + (if IsFetchable(x) then [x] else [])
  {
    assert (rows + [x])[..|rows|] == rows;
  }

  lemma SeedCandidatesSnoc(cache: map<string, string>, rows: seq<RowData>, x: RowData)
    ensures SeedCandidates(cache, rows + [x]) == SeedCandidates(cache, rows) + (if SeedEligible(cache, x) then [x] else [])
  {
    assert (rows + [x])[..|rows|] == rows;
  }

  /** The forEach of the seeding: record each candidate's link under its nummer, in order, through `Assign`. */
  function ApplySeeds(cache: map<string, string>, candidates: seq<RowData>): map<string, string>
    decreases |candidates|
  {
    if candidates == [] then cache
    else ApplySeeds(Assign(cache, candidates[0].nummer, candidates[0].link), candidates[1..])
  }

  function Seed(cache: map<string, string>, rows: seq<RowData>): map<string, string> {
    ApplySeeds(cache, SeedCandidates(cache, rows))
  }

  /** Writing the seeds touches only the nummers of the candidates. */
  lemma {:induction false} ApplySeedsFrame(cache: map<string, string>, candidates: seq<RowData>, key: string)
    requires key !in Keys(candidates)
    ensures SameEntry(cache, ApplySeeds(cache, candidates), key)
    decreases |candidates|
  {
    if candidates != [] {
      KeysOfTail(candidates);
      ApplySeedsFrame(Assign(cache, candidates[0].nummer, candidates[0].link), candidates[1..], key);
    }
  }

  /** A candidate whose nummer no other candidate carries with a different link ends up seeded with its link. */
  lemma {:induction false} ApplySeedsCovers(cache: map<string, string>, candidates: seq<RowData>, x: RowData)
    requires x in candidates
    requires forall y :: y in candidates && y.nummer == x.nummer ==> y.link == x.link
    requires x.nummer != ProtoKey || ProtoKey in cache
    ensures var seeded := ApplySeeds(cache, candidates);
      x.nummer in seeded && seeded[x.nummer] == x.link
    decreases |candidates|
  {
    var next := Assign(cache, candidates[0].nummer, candidates[0].link);
    var rest := candidates[1..];
    if x in rest {
      ApplySeedsCovers(next, rest, x);
    } else if x.nummer in Keys(rest) {
      var j :| 0 <= j < |rest| && rest[j].nummer == x.nummer;
      ApplySeedsCovers(next, rest, rest[j]);
    } else {
      assert x == candidates[0];
      ApplySeedsFrame(next, rest, x.nummer);
    }
  }

  /** Every seeded entry is either the old one or the link of a candidate with that nummer. */
  lemma {:induction false} ApplySeedsSource(cache: map<string, string>, candidates: seq<RowData>, key: string)
    requires key in ApplySeeds(cache, candidates)
    ensures var seeded := ApplySeeds(cache, candidates);
      (key in cache && seeded[key] == cache[key]) ||
      exists x :: x in candidates && x.nummer == key && seeded[key] == x.link
    decreases |candidates|
  {
    if candidates != [] {
      var next := Assign(cache, candidates[0].nummer, candidates[0].link);
      ApplySeedsSource(next, candidates[1..], key);
      var seeded := ApplySeeds(cache, candidates);
      if !(key in next && seeded[key] == next[key]) {
        var x :| x in candidates[1..] && x.nummer == key && seeded[key] == x.link;
        assert x in candidates;
      } else if key == candidates[0].nummer {
        assert candidates[0] in candidates;
      }
    }
  }

  /** Seeding never touches a truthy cache entry, inherited ones included. */
  lemma SeedKeepsEntries(cache: map<string, string>, rows: seq<RowData>, key: string)
    requires HasEntry(cache, key)
    ensures SameEntry(cache, Seed(cache, rows), key)
  {
    var candidates := SeedCandidates(cache, rows);
    forall j | 0 <= j < |candidates| ensures candidates[j].nummer != key {
      assert candidates[j] in candidates;
    }
    ApplySeedsFrame(cache, candidates, key);
  }

  /** A nummer that names an inherited property is never seeded: it already reads as truthy. */
  lemma SeedSkipsInheritedKeys(cache: map<string, string>, rows: seq<RowData>, key: string)
    requires key in InheritedKeys && key !in cache
    ensures key !in Seed(cache, rows)
  {
    SeedKeepsEntries(cache, rows, key);
  }

  /**
    Every entry seeding adds or changes is the link of an eligible row with
    that nummer: a fetchable link, no truthy entry before, a non-empty lengte.
   */
  lemma SeedOnlyFromEligible(cache: map<string, string>, rows: seq<RowData>, key: string)
    requires key in Seed(cache, rows)
    requires !(key in cache && Seed(cache, rows)[key] == cache[key])
    ensures exists x :: x in rows && SeedEligible(cache, x) && x.nummer == key && Seed(cache, rows)[key] == x.link
  {
    ApplySeedsSource(cache, SeedCandidates(cache, rows), key);
  }

  /** With distinct nummers, every eligible row is seeded with its link. */
  lemma SeedCoversEligible(cache: map<string, string>, rows: seq<RowData>, x: RowData)
    requires UniqueKeys(rows)
    requires x in rows && SeedEligible(cache, x)
    ensures var seeded := Seed(cache, rows);
      x.nummer in seeded && seeded[x.nummer] == x.link
  {
    var candidates := SeedCandidates(cache, rows);
    forall y | y in candidates && y.nummer == x.nummer ensures y.link == x.link {
      var i :| 0 <= i < |rows| && rows[i] == x;
      var j :| 0 <= j < |rows| && rows[j] == y;
      assert i == j;
    }
    ApplySeedsCovers(cache, candidates, x);
  }

  /** One run of `updater` once the rows are read: seed the cache, then run fetchData on the fetchable rows. */
  function Reconcile(cache: map<string, string>, rows: seq<RowData>, api: string -> Response,
                     renderDate: string -> string): PassResult
  {
    Pass(Seed(cache, rows), FetchableRows(rows), api, renderDate)
  }

  /**
    The first run of updater after a start, with distinct nummers and every
    fetchable row already holding a lengte, fetches nothing: seeding caches
    every fetchable row, so fetchData skips them all.
   */
  lemma FreshStartFetchesNothing(rows: seq<RowData>, api: string -> Response, renderDate: string -> string)
    requires UniqueKeys(rows)
    requires forall x :: x in rows && IsFetchable(x) ==> x.out.lengte != "" && x.nummer !in InheritedKeys
    ensures var r := Reconcile(map[], rows, api, renderDate);
      r.calls == [] && r.rows == FetchableRows(rows) && !r.aborted
  {
    var seeded := Seed(map[], rows);
    var fetchable := FetchableRows(rows);
    forall k | 0 <= k < |fetchable| ensures IsCached(seeded, fetchable[k]) {
      var x := fetchable[k];
      assert x in fetchable;
      SeedCoversEligible(map[], rows, x);
    }
    PassOverCachedRows(seeded, fetchable, api, renderDate);
  }
}
