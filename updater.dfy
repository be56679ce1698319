/**
  The imperative side of index.js: the change cache as a field that the
  methods reassign, the spreadsheet rows as objects whose columns fetchData
  assigns in place, and the loops of fetchData (index.js:32-105) and of the
  seeding in updater (index.js:133-144), each proved to compute the pass
  described in reconciliation.dfy.
 */
module Updater {
  import opened Wrappers
  import opened LinkResolver
  import opened MetadataMapper
  import opened Reconciliation

  /** A spreadsheet row as the table library hands it out. */
  class Row {
    var nummer: string
    var link: string      // row["dumpert-link"]
    var titel: string
    var uploaddatum: string
    var views: int
    var kudos: int
    var nsfw: string
    var lengte: string
    var thumbnail: string
    var mediaUrl: string  // row["media-url"]

    constructor (nummer: string, link: string, out: Fields)
      ensures Data() == RowData(nummer, link, out)
    {
      this.nummer, this.link := nummer, link;
      titel, uploaddatum, views, kudos := out.titel, out.uploaddatum, out.views, out.kudos;
      nsfw, lengte, thumbnail, mediaUrl := out.nsfw, out.lengte, out.thumbnail, out.mediaUrl;
    }

    function Data(): RowData
      reads this
    {
      RowData(nummer, link, Fields(titel, uploaddatum, views, kudos, nsfw, lengte, thumbnail, mediaUrl))
    }

    /** index.js:64-68: the columns written before the first media track is read. */
    method WriteHeader(item: Item, renderDate: string -> string)
      modifies this
      ensures Data() == old(Data()).(out := MapHeader(item, renderDate, old(Data()).out))
    {
      titel := item.title;
      uploaddatum := renderDate(item.date);
      views := item.viewsTotal;
      kudos := item.kudosTotal;
      nsfw := NsfwToken(item.nsfw);
    }

    /** index.js:69-93: lengte, thumbnail and the media-url chosen from the first media track. */
    method WriteMedia(item: Item)
      requires item.media != []
      modifies this
      ensures Data() == old(Data()).(out := old(Data()).out.(
        lengte := FormatClock(item.media[0].duration),
        thumbnail := item.still,
        mediaUrl := SelectMediaUrl(item.media[0].variants, old(mediaUrl))))
    {
      lengte := FormatClock(item.media[0].duration);
      thumbnail := item.still;
      var variants := item.media[0].variants;
      if |variants| == 1 {
        if StartsWith(variants[0].uri, YoutubeTag) {
          mediaUrl := WatchPrefix + ReplaceFirst(variants[0].uri, YoutubeTag, "");
        } else {
          mediaUrl := variants[0].uri;
        }
      } else {
        var variant := FindVersion(variants, "720p");
        if variant.None? {
          variant := FindVersion(variants, "tablet");
        }
        if variant.None? {
          variant := FindVersion(variants, "mobile");
        }
        if variant.Some? {
          mediaUrl := variant.value.uri;
        }
      }
    }
  }

  /** The values of a list of rows. */
  function Snapshot(rows: seq<Row>): (d: seq<RowData>)
    reads rows
    ensures |d| == |rows| && forall i :: 0 <= i < |rows| ==> d[i] == rows[i].Data()
  {
    seq(|rows|, i reads rows requires 0 <= i < |rows| => rows[i].Data())
  }

  /** Replacing the first element after a prefix. */
  lemma ReplaceAtBoundary<T>(done: seq<T>, rest: seq<T>, x: T)
    requires rest != []
    ensures (done + rest)[|done| := x] == done + [x] + rest[1..]
  {
  }

  /** Snapshots distribute over concatenation. */
  lemma SnapshotAppend(front: seq<Row>, back: seq<Row>)
    ensures Snapshot(front + back) == Snapshot(front) + Snapshot(back)
  {
  }

  /** The snapshot of the rows is that of all but the last, followed by the last row's values. */
  lemma SnapshotSnoc(rows: seq<Row>)
    requires rows != []
    ensures Snapshot(rows) == Snapshot(rows[..|rows| - 1]) + [rows[|rows| - 1].Data()]
  {
  }

  /** `rows.filter(fetchable)` on the row objects themselves. */
  ghost function FetchableObjects(rows: seq<Row>): seq<Row>
    reads rows
  {
    if rows == [] then []
    else FetchableObjects(rows[..|rows| - 1]) +
         (if IsFetchable(rows[|rows| - 1].Data()) then [rows[|rows| - 1]] else [])
  }

  /** `rows.filter(seedEligible)` on the row objects, against the cache before seeding. */
  ghost function SeedObjects(cache: map<string, string>, rows: seq<Row>): seq<Row>
    reads rows
  {
    if rows == [] then []
    else SeedObjects(cache, rows[..|rows| - 1]) +
         (if SeedEligible(cache, rows[|rows| - 1].Data()) then [rows[|rows| - 1]] else [])
  }

  /** Filtering the objects and then reading them gives the filtered snapshot. */
  lemma {:induction false} FetchableObjectsSnapshot(rows: seq<Row>)
    ensures Snapshot(FetchableObjects(rows)) == FetchableRows(Snapshot(rows))
    decreases |rows|
  {
    if rows != [] {
      var init, last := rows[..|rows| - 1], rows[|rows| - 1];
      var kept := if IsFetchable(last.Data()) then [last] else [];
      calc {
        Snapshot(FetchableObjects(rows));
        Snapshot(FetchableObjects(init) + kept);
        { SnapshotAppend(FetchableObjects(init), kept); }
        Snapshot(FetchableObjects(init)) + Snapshot(kept);
        { FetchableObjectsSnapshot(init); }
        FetchableRows(Snapshot(init)) + (if IsFetchable(last.Data()) then [last.Data()] else []);
        { FetchableRowsSnoc(Snapshot(init), last.Data()); }
        FetchableRows(Snapshot(init) + [last.Data()]);
        { SnapshotSnoc(rows); }
        FetchableRows(Snapshot(rows));
      }
    }
  }

  /** The kept objects are exactly the fetchable ones. */
  lemma {:induction false} FetchableObjectsMembers(rows: seq<Row>)
    ensures forall r :: r in FetchableObjects(rows) <==> r in rows && IsFetchable(r.Data())
    decreases |rows|
  {
    if rows != [] {
      FetchableObjectsMembers(rows[..|rows| - 1]);
      assert rows == rows[..|rows| - 1] + [rows[|rows| - 1]];
    }
  }

  /** Filtering a list without repeats keeps it without repeats. */
  lemma {:induction false} FetchableObjectsDistinct(rows: seq<Row>)
    requires Distinct(rows)
    ensures Distinct(FetchableObjects(rows))
    decreases |rows|
  {
    if rows != [] {
      var init := rows[..|rows| - 1];
      FetchableObjectsDistinct(init);
      FetchableObjectsMembers(init);
      assert rows[|rows| - 1] !in init;
    }
  }

  /** The same for the seeding filter. */
  lemma {:induction false} SeedObjectsSpec(cache: map<string, string>, rows: seq<Row>)
    ensures Snapshot(SeedObjects(cache, rows)) == SeedCandidates(cache, Snapshot(rows))
    decreases |rows|
  {
    if rows != [] {
      var init, last := rows[..|rows| - 1], rows[|rows| - 1];
      var kept := if SeedEligible(cache, last.Data()) then [last] else [];
      calc {
        Snapshot(SeedObjects(cache, rows));
        Snapshot(SeedObjects(cache, init) + kept);
        { SnapshotAppend(SeedObjects(cache, init), kept); }
        Snapshot(SeedObjects(cache, init)) + Snapshot(kept);
        { SeedObjectsSpec(cache, init); }
        SeedCandidates(cache, Snapshot(init)) + (if SeedEligible(cache, last.Data()) then [last.Data()] else []);
        { SeedCandidatesSnoc(cache, Snapshot(init), last.Data()); }
        SeedCandidates(cache, Snapshot(init) + [last.Data()]);
        { SnapshotSnoc(rows); }
        SeedCandidates(cache, Snapshot(rows));
      }
    }
  }

  /** No row object appears twice. */
  predicate Distinct(rows: seq<Row>) {
    forall i, j :: 0 <= i < j < |rows| ==> rows[i] != rows[j]
  }

  class Reconciler {
    /** The process-wide `cache`: row nummer to the last link handled for it. */
    var cache: map<string, string>

    constructor ()
      ensures cache == map[]
    {
      cache := map[];
    }

    /**
      fetchData: walk the rows in order, skipping cached ones, writing the
      columns of rows whose metadata arrives, and advancing the cache. The
      returned calls are the requests and row saves issued; `aborted` is an
      exception escaping the loop.
     */
    method FetchData(rows: seq<Row>, api: string -> Response, renderDate: string -> string)
      returns (calls: seq<Call>, aborted: bool)
      requires Distinct(rows)
      modifies this, rows
      ensures var p := Pass(old(cache), old(Snapshot(rows)), api, renderDate);
        cache == p.cache && Snapshot(rows) == p.rows && calls == p.calls && aborted == p.aborted
    {
      ghost var rows0 := Snapshot(rows);
      ghost var target := Pass(cache, rows0, api, renderDate);
      ghost var done: seq<RowData> := [];
      ghost var statuses: seq<Status> := [];
      ghost var step := RowStep(api, renderDate);
      calls, aborted := [], false;
      ContinueFromStart(cache, rows0, step);
      var i := 0;
      while i < |rows| && !aborted
        invariant 0 <= i <= |rows| && |done| == i
        invariant !aborted ==> Snapshot(rows) == done + rows0[i..]
        invariant !aborted ==> Continue(cache, done, calls, statuses, rows0[i..], step) == target
        invariant aborted ==>
          cache == target.cache && Snapshot(rows) == target.rows && calls == target.calls && target.aborted
      {
        var status;
        calls, status, done, statuses := Advance(rows, i, rows0, done, calls, statuses, target, step, api, renderDate);
        aborted := status == Aborted;
        i := i + 1;
      }
      if !aborted {
        assert rows0[i..] == [] && done + rows0[i..] == done;
        ContinueAtEnd(cache, done, calls, statuses, rows0[i..], step);
      }
    }

    /**
      One turn of the fetchData loop, at row `i`, as a step of the pass: the
      rows before `i` are done, the rest still hold their values.
     */
    method Advance(rows: seq<Row>, i: nat, ghost rows0: seq<RowData>, ghost done: seq<RowData>, calls: seq<Call>,
                   ghost statuses: seq<Status>, ghost target: PassResult, ghost step: StepFn,
                   api: string -> Response, renderDate: string -> string)
      returns (calls': seq<Call>, status: Status, ghost done': seq<RowData>, ghost statuses': seq<Status>)
      requires Distinct(rows) && i < |rows| == |rows0| && |done| == i
      requires Snapshot(rows) == done + rows0[i..]
      requires step == RowStep(api, renderDate)
      requires Continue(cache, done, calls, statuses, rows0[i..], step) == target
      modifies this, rows[i]
      ensures |done'| == i + 1
      ensures status != Aborted ==>
        && Snapshot(rows) == done' + rows0[i + 1..]
        && Continue(cache, done', calls', statuses', rows0[i + 1..], step) == target
      ensures status == Aborted ==>
        cache == target.cache && Snapshot(rows) == target.rows && calls' == target.calls && target.aborted
    {
      ghost var rest := rows0[i..];
      ghost var cacheBefore := cache;
      ghost var snapBefore := Snapshot(rows);
      assert rest != [] && rest[1..] == rows0[i + 1..];
      assert snapBefore[i] == rest[0];
      ghost var s := Step(cacheBefore, rest[0], api, renderDate);
      var rowCalls;
      rowCalls, status := ProcessRowAt(rows, i, api, renderDate);
      calls' := calls + rowCalls;
      done', statuses' := done + [s.row], statuses + [status];
      ReplaceAtBoundary(done, rest, s.row);
      if status == Aborted {
        ContinueAbort(cacheBefore, done, calls, statuses, rest, step);
      } else {
        ContinueStep(cacheBefore, done, calls, statuses, rest, step);
      }
    }

    /** `cache[key] = value` on the object literal: a string assigned through `__proto__` is dropped. */
    method Store(key: string, value: string)
      modifies this
      ensures cache == Assign(old(cache), key, value)
    {
      if key != ProtoKey || key in cache {
        cache := cache[key := value];
      }
    }

    /** The loop body of fetchData for the row at index `i`: no other row changes. */
    method ProcessRowAt(rows: seq<Row>, i: nat, api: string -> Response, renderDate: string -> string)
      returns (calls: seq<Call>, status: Status)
      requires i < |rows| && Distinct(rows)
      modifies this, rows[i]
      ensures var s := Step(old(cache), old(Snapshot(rows))[i], api, renderDate);
        && cache == s.cache && calls == s.calls && status == s.status
        && Snapshot(rows) == old(Snapshot(rows))[i := s.row]
    {
      ghost var before := Snapshot(rows);
      calls, status := ProcessRow(rows[i], api, renderDate);
      forall j | 0 <= j < |rows| && j != i ensures rows[j].Data() == before[j] {
        assert rows[j] != rows[i];
      }
    }

    /** The loop body of fetchData for one row. */
    method ProcessRow(row: Row, api: string -> Response, renderDate: string -> string)
      returns (calls: seq<Call>, status: Status)
      modifies this, row
      ensures var s := Step(old(cache), old(row.Data()), api, renderDate);
        cache == s.cache && row.Data() == s.row && calls == s.calls && status == s.status
    {
      if HasEntry(cache, row.nummer) && row.nummer in cache && cache[row.nummer] == row.link {
        return [], Skipped;
      }
      var id := IdFromUrl(row.link);
      if id.None? {
        Store(row.nummer, row.link);
        return [], Unresolvable;
      }
      var url := ApiUrl(id.value);
      calls := [Fetch(url)];
      var body := api(url);
      if body.Rejected? {
        return calls, Aborted;
      }
      if body.Unparsable? {
        Store(row.nummer, row.link);
        return calls, ParseFailed;
      }
      if !body.success {
        Store(row.nummer, row.link);
        return calls, NoSuccess;
      }
      if body.items == [] {
        return calls, Aborted;
      }
      var item := body.items[0];
      row.WriteHeader(item, renderDate);
      if item.media == [] {
        return calls, Aborted;
      }
      row.WriteMedia(item);
      Store(row.nummer, row.link);
      calls := calls + [Save(row.nummer)];
      status := Updated;
    }

    /**
      The seeding of updater: pick the rows with a fetchable link, no truthy
      cache entry and a non-empty lengte, then record each one's link.
     */
    method SeedCache(rows: seq<Row>)
      modifies this
      ensures cache == Seed(old(cache), Snapshot(rows))
    {
      ghost var data := Snapshot(rows);
      ghost var cache0 := cache;
      var candidates := SelectSeeds(rows, cache);
      SeedObjectsSpec(cache, rows);
      ghost var seeds := Snapshot(candidates);
      assert seeds == SeedCandidates(cache0, data);
      WriteSeeds(candidates);
      assert cache == ApplySeeds(cache0, seeds);
      assert Snapshot(rows) == data;
    }

    /** The forEach of the seeding: record each candidate's link under its nummer. */
    method WriteSeeds(candidates: seq<Row>)
      modifies this
      ensures cache == ApplySeeds(old(cache), Snapshot(candidates))
    {
      ghost var seeds := Snapshot(candidates);
      ghost var cache0 := cache;
      for j := 0 to |candidates|
        invariant ApplySeeds(cache, seeds[j..]) == ApplySeeds(cache0, seeds)
      {
        assert seeds[j..] == [seeds[j]] + seeds[j + 1..];
        Store(candidates[j].nummer, candidates[j].link);
      }
    }

    /**
      One run of updater once the rows are read: seed the cache, keep the rows
      with a fetchable link, and run fetchData on those.
     */
    method Update(rows: seq<Row>, api: string -> Response, renderDate: string -> string)
      returns (fetchable: seq<Row>, calls: seq<Call>, aborted: bool)
      requires Distinct(rows)
      modifies this, rows
      ensures var p := Reconcile(old(cache), old(Snapshot(rows)), api, renderDate);
        cache == p.cache && Snapshot(fetchable) == p.rows && calls == p.calls && aborted == p.aborted
      ensures forall r :: r in rows ==> (r in fetchable <==> IsFetchable(old(r.Data())))
      ensures forall r :: r in fetchable ==> r in rows
      ensures forall r :: r in rows && r !in fetchable ==> r.Data() == old(r.Data())
    {
      fetchable := SeedAndSelect(rows);
      calls, aborted := FetchData(fetchable, api, renderDate);
    }

    /** The part of a run before fetchData: seed the cache, then keep the rows with a fetchable link. */
    method SeedAndSelect(rows: seq<Row>) returns (fetchable: seq<Row>)
      requires Distinct(rows)
      modifies this
      ensures cache == Seed(old(cache), Snapshot(rows))
      ensures Snapshot(fetchable) == FetchableRows(Snapshot(rows))
      ensures Distinct(fetchable)
      ensures forall r :: r in fetchable ==> r in rows
      ensures forall r :: r in rows ==> (r in fetchable <==> IsFetchable(r.Data()))
    {
      ghost var data := Snapshot(rows);
      SeedCache(rows);
      assert Snapshot(rows) == data;
      fetchable := SelectFetchable(rows);
    }
  }

  /** `rows.filter(fetchable)`, keeping the row objects themselves. */
  method SelectFetchable(rows: seq<Row>) returns (fetchable: seq<Row>)
    requires Distinct(rows)
    ensures Snapshot(fetchable) == FetchableRows(Snapshot(rows))
    ensures Distinct(fetchable)
    ensures forall r :: r in fetchable ==> r in rows
    ensures forall r :: r in rows ==> (r in fetchable <==> IsFetchable(r.Data()))
  {
    fetchable := [];
    for i := 0 to |rows|
      invariant fetchable == FetchableObjects(rows[..i])
    {
      var row := rows[i];
      assert rows[..i + 1][..i] == rows[..i];
      if row.link != "" && StartsWith(row.link, HttpsScheme) {
        fetchable := fetchable + [row];
      }
    }
    assert rows[..|rows|] == rows;
    FetchableObjectsSnapshot(rows);
    FetchableObjectsMembers(rows);
    FetchableObjectsDistinct(rows);
  }

  /** The seed candidates among the rows: `rows.filter(seedEligible)` against `cache`. */
  method SelectSeeds(rows: seq<Row>, cache: map<string, string>) returns (candidates: seq<Row>)
    ensures candidates == SeedObjects(cache, rows)
  {
    candidates := [];
    for i := 0 to |rows|
      invariant candidates == SeedObjects(cache, rows[..i])
    {
      var row := rows[i];
      assert rows[..i + 1][..i] == rows[..i];
      if row.link != "" && StartsWith(row.link, HttpsScheme) && !HasEntry(cache, row.nummer)
         && row.lengte != "" {
        candidates := candidates + [row];
      }
    }
    assert rows[..|rows|] == rows;
  }
}
