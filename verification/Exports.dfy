/** What a pull commits, and what becomes of stored variables, collections and the geometry setting over runs:
    a pull without an export leaves the variables alone, and one with an export replaces them all. */
module Exports {
  import opened Basics
  import opened Json
  import opened Model
  import opened Store
  import opened Flatten
  import opened Sync
  import opened Pulls
  import opened Mirror
  import opened FileRows

  // ---- what a reply commits ----

  /** The reply holds a response that flattens, and an export that parsed if it holds one at all. */
  predicate Commits(reply: Reply) {
    && reply.Ok?
    && (var resp := reply.value.0;
        HasText(resp, "name") && HasText(resp, "version") && HasText(resp, "lastModified") && resp.Get("document").Some?)
    && (reply.value.1.Some? ==> reply.value.1.value.Ok?)
  }

  /** A pull writes exactly when its reply commits, and then what was fetched: with the export if and only if
      there was one. A file that does not flatten is reported before an export that does not parse. */
  lemma PreparedWhen(reply: Reply)
    ensures Prepared(reply).Ok? <==> Commits(reply)
    ensures Prepared(reply).Ok? ==>
      && (reply.value.1 == None <==> Prepared(reply).value.vars == None)
      && forall recs :: reply.value.1 == Some(Ok(recs)) <==> Prepared(reply).value.vars == Some(recs)
    ensures reply.Err? ==> Prepared(reply) == Err(reply.error)
    ensures reply.Ok? && FlattenedFile(reply.value.0).Ok? && reply.value.1.Some? && reply.value.1.value.Err? ==>
      Prepared(reply) == Err(reply.value.1.value.error)
    ensures reply.Ok? && !HasText(reply.value.0, "name") ==> Prepared(reply) == Err("name")
  {
    if reply.Ok? {
      FlattenWhen(reply.value.0);
    }
    hide FlattenedFile, HasText;
  }

  // ---- one pull ----

  /** The last of the entries under `id` holds `row`; there is none without a row. */
  ghost predicate LastUnder(recs: seq<Entry>, id: Id, row: Option<Rec>) {
    match row
    case Some(rec) => exists i: nat :: LastEntry(recs, id, i) && recs[i].rec == rec
    case None => forall e <- recs :: e.id != id
  }

  ghost predicate LastEntry(recs: seq<Entry>, id: Id, i: nat) {
    i < |recs| && recs[i].id == id && forall j :: i < j < |recs| ==> recs[j].id != id
  }

  /** Upserting in order leaves the last entry under each id. */
  lemma {:induction false} LastWins(recs: seq<Entry>, id: Id)
    ensures LastUnder(recs, id, Lookup(AsRows(recs), id))
  {
    if recs != [] {
      var front, n := recs[..|recs| - 1], |recs| - 1;
      assert recs == front + [recs[n]];
      LastWins(front, id);
      if recs[n].id == id {
        assert LastEntry(recs, id, n);
      } else if Lookup(AsRows(recs), id).Some? {
        var i: nat :| LastEntry(front, id, i) && front[i].rec == Lookup(AsRows(front), id).value;
        assert LastEntry(recs, id, i);
      }
    }
  }

  /** What follows the sync leaves variables and collections alone. */
  lemma VariablesTail(rows: Rows, d: Fetched, geometry: bool, now: nat, id: Id)
    requires VariableKind(id)
    ensures Lookup(SessionPulled(rows, d, geometry, now), id) == Lookup(AfterSync(rows, d, now), id)
    ensures Lookup(CliPulled(rows, d, geometry, now), id) == Lookup(AfterSync(rows, d, now), id)
  {
    hide AfterSync;
  }

  /** Without an export every stored variable and collection reads back as before. */
  lemma SyncLeavesVariables(rows: Rows, d: Fetched, now: nat, id: Id)
    requires Storable(d) && VariableKind(id) && d.vars.None?
    ensures Lookup(AfterSync(rows, d, now), id) == Lookup(rows, id)
  {
    assert Combined(d).recs == d.f.recs;
    hide Upserted;
    assert id !in Live(d.f.recs);
    UpsertedElsewhere(rows, d.f.recs, id);
  }

  /** With an export the stored variables and collections are exactly the export's. */
  lemma SyncStoresExport(rows: Rows, d: Fetched, now: nat, id: Id)
    requires Storable(d) && VariableKind(id) && d.vars.Some?
    ensures LastUnder(d.vars.value, id, Lookup(AfterSync(rows, d, now), id))
  {
    var vars := d.vars.value;
    assert Combined(d).recs == d.f.recs + vars;
    hide Upserted, AsRows, LastUnder;
    LastWins(vars, id);
    NotRecorded(vars, id);
    UpsertedAppend(rows, d.f.recs, vars);
    assert id !in Live(d.f.recs);
    LiveOfBoth(d.f.recs, vars, id);
    if id in Live(vars) {
      UpsertedOver(Upserted(rows, d.f.recs), vars, id);
    } else {
      SyncedLookup(rows, Prior(rows, d), Combined(d), now, id);
      assert id in rows ==> id in Prior(rows, d);
    }
  }

  lemma LiveOfBoth(a: seq<Entry>, b: seq<Entry>, id: Id)
    ensures id in Live(a + b) <==> id in Live(a) || id in Live(b)
  {
    forall e ensures e in a + b <==> e in a || e in b { }
  }

  /** A pull of either kind, whole or cut short: no export, no change; an export, exactly it. */
  lemma PullVariables(rows: Rows, d: Fetched, geometry: bool, now: nat, id: Id)
    requires Storable(d) && VariableKind(id)
    ensures d.vars.None? ==>
      && Lookup(AfterSync(rows, d, now), id) == Lookup(rows, id)
      && Lookup(SessionPulled(rows, d, geometry, now), id) == Lookup(rows, id)
      && Lookup(CliPulled(rows, d, geometry, now), id) == Lookup(rows, id)
    ensures d.vars.Some? ==>
      && LastUnder(d.vars.value, id, Lookup(AfterSync(rows, d, now), id))
      && LastUnder(d.vars.value, id, Lookup(SessionPulled(rows, d, geometry, now), id))
      && LastUnder(d.vars.value, id, Lookup(CliPulled(rows, d, geometry, now), id))
  {
    hide AfterSync, SessionPulled, CliPulled, Storable, LastUnder;
    VariablesTail(rows, d, geometry, now, id);
    if d.vars.None? {
      SyncLeavesVariables(rows, d, now, id);
    } else {
      SyncStoresExport(rows, d, now, id);
    }
  }

  // ---- any run ----

  predicate StartsOver(e: Event) {
    !e.Written? && !e.BySession? && e.startOver && e.reply.Ok?
  }

  /** The event brings in an export. */
  predicate Exports(e: Event) {
    !e.Written? && Commits(e.reply) && e.reply.value.1.Some?
  }

  /** The event leaves the variable or collection `id` as it was: it is a write of another row, or a pull
      that neither starts over nor commits an export. */
  predicate Passes(e: Event, id: Id) {
    if e.Written? then e.op.id != id else !StartsOver(e) && !Exports(e)
  }

  lemma PullOfVariables(rows: Rows, e: Event, id: Id)
    requires Sound(e) && !e.Written? && Commits(e.reply) && VariableKind(id)
    ensures Exports(e) ==> LastUnder(e.reply.value.1.value.value, id, Lookup(After(rows, e), id))
    ensures !Exports(e) ==> Lookup(After(rows, e), id) == Lookup(StartOf(rows, e), id)
  {
    PreparedWhen(e.reply);
    SoundReply(e);
    PreparedStorable(e.reply);
    var geometry := if e.CutShort? then false else e.geometry;
    hide Prepared, AfterSync, SessionPulled, CliPulled, Storable, LastUnder, Commits, Sound, VariableKind, Started;
    PullVariables(StartOf(rows, e), Prepared(e.reply).value, geometry, e.now, id);
  }

  lemma EventVariables(rows: Rows, e: Event, id: Id)
    requires Sound(e) && VariableKind(id)
    ensures Passes(e, id) ==> Lookup(After(rows, e), id) == Lookup(rows, id)
    ensures Exports(e) ==> LastUnder(e.reply.value.1.value.value, id, Lookup(After(rows, e), id))
    ensures StartsOver(e) && !Exports(e) ==> Lookup(After(rows, e), id) == None
    ensures e.Written? && e.op.id == id ==>
      Lookup(After(rows, e), id) == if e.op.Upsert? then Some(e.op.rec) else None
  {
    if !e.Written? {
      if Commits(e.reply) {
        PullOfVariables(rows, e, id);
        hide After, LastUnder, Commits, Sound;
      } else {
        PreparedWhen(e.reply);
        hide Prepared, AfterSync, SessionPulled, CliPulled, Commits, LastUnder;
      }
    }
  }

  lemma {:induction false} RunAppend(rows: Rows, a: seq<Event>, b: seq<Event>)
    ensures Run(rows, a + b) == Run(Run(rows, a), b)
  {
    hide After;
    if b == [] {
      assert a + b == a;
    } else {
      RunAppend(rows, a, b[..|b| - 1]);
      assert (a + b)[..|a + b| - 1] == a + b[..|b| - 1];
    }
  }

  /** Whatever passes leaves the row alone, however long it goes on. */
  lemma {:induction false} RunPasses(rows: Rows, events: seq<Event>, id: Id)
    requires VariableKind(id) && forall e <- events :: Sound(e) && Passes(e, id)
    ensures Lookup(Run(rows, events), id) == Lookup(rows, id)
  {
    hide Sound, Passes, After;
    if events != [] {
      RunPasses(rows, events[..|events| - 1], id);
      EventVariables(Run(rows, events[..|events| - 1]), events[|events| - 1], id);
    }
  }

  /** After any run, a variable or collection reads back as the last event that did not pass it left it: the
      export committed, of equal ids the last; nothing, after a fresh start without one; or what was written. */
  lemma RunVariables(rows: Rows, before: seq<Event>, e: Event, later: seq<Event>, id: Id)
    requires Sound(e) && forall x <- later :: Sound(x) && Passes(x, id)
    requires VariableKind(id) && !Passes(e, id)
    ensures var row := Lookup(Run(rows, before + [e] + later), id);
      if e.Written? then row == if e.op.Upsert? then Some(e.op.rec) else None
      else if Exports(e) then LastUnder(e.reply.value.1.value.value, id, row)
      else row == None
  {
    hide Sound, After, LastUnder, Exports, StartsOver;
    RunAppend(rows, before + [e], later);
    assert (before + [e])[..|before|] == before;
    RunPasses(Run(rows, before + [e]), later, id);
    EventVariables(Run(rows, before), e, id);
  }

  // ---- the geometry setting over runs ----

  /** A whole pull that was asked for geometry. */
  predicate AsksGeometry(e: Event) {
    (e.ByCli? || e.BySession?) && e.geometry && Commits(e.reply)
  }

  /** Some pull asked for geometry and no fresh start came after it. */
  ghost predicate GeometryAsked(events: seq<Event>) {
    exists i :: 0 <= i < |events| && AsksGeometry(events[i]) && NoStart(events, i + 1)
  }

  ghost predicate NoStart(events: seq<Event>, from: nat) {
    forall j :: from <= j < |events| ==> !StartsOver(events[j])
  }

  lemma GeometryAskedLast(events: seq<Event>, e: Event)
    ensures GeometryAsked(events + [e]) <==> AsksGeometry(e) || (GeometryAsked(events) && !StartsOver(e))
  {
    hide StartsOver, AsksGeometry;
    var all := events + [e];
    if AsksGeometry(e) {
      assert AsksGeometry(all[|events|]) && NoStart(all, |events| + 1);
    }
    if GeometryAsked(events) && !StartsOver(e) {
      var i :| 0 <= i < |events| && AsksGeometry(events[i]) && NoStart(events, i + 1);
      assert all[i] == events[i] && NoStart(all, i + 1);
    }
    if GeometryAsked(all) && !AsksGeometry(e) {
      var i :| 0 <= i < |all| && AsksGeometry(all[i]) && NoStart(all, i + 1);
      assert i < |events| && all[|events|] == e;
      forall j | i + 1 <= j < |events| ensures !StartsOver(events[j]) {
        assert all[j] == events[j];
      }
      assert NoStart(events, i + 1);
    }
  }

  lemma EventGeometry(rows: Rows, e: Event)
    requires Sound(e) && (e.Written? ==> e.op.id != MirrorConfigId)
    ensures ReadGeometry(After(rows, e)) <==> AsksGeometry(e) || (ReadGeometry(rows) && !StartsOver(e))
  {
    if !e.Written? {
      PreparedWhen(e.reply);
      SoundReply(e);
      hide Commits, Sound;
      if Commits(e.reply) {
        PreparedStorable(e.reply);
        var start, d := StartOf(rows, e), Prepared(e.reply).value;
        hide Prepared, AfterSync, SessionPulled, CliPulled, Storable;
        if e.CutShort? {
          SyncKeepsCaches(start, d, e.now, MirrorConfigId);
        } else {
          GeometrySticks(start, d, e.geometry, e.now);
        }
      }
    }
  }

  /** From an empty store, the mirror asks for geometry exactly when some pull since the last fresh start did. */
  lemma {:induction false} RunGeometry(events: seq<Event>)
    requires forall e <- events :: Sound(e) && (e.Written? ==> e.op.id != MirrorConfigId)
    ensures ReadGeometry(Run(map[], events)) <==> GeometryAsked(events)
  {
    if events != [] {
      var front, last := events[..|events| - 1], events[|events| - 1];
      assert events == front + [last];
      hide Sound, After, GeometryAsked, AsksGeometry, StartsOver, ReadGeometry;
      RunGeometry(front);
      EventGeometry(Run(map[], front), last);
      GeometryAskedLast(front, last);
    }
  }
}
