/**
 What the isolation check says about a model, in terms of its features, its connections and its
 containment alone.
 */
module IsolationMeaning {
  import opened Arith
  import opened Instances
  import opened Diagnostics
  import opened PartitionIsolation

  // ---- Names and ends ----

  /** The first feature of the end's component that bears the end's name is of the kind. */
  ghost predicate NamesFeature(inst: Instance, e: Endpoint, kind: FeatureKind)
    requires inst.Has(e.comp)
  {
    var features := inst.components[e.comp].features;
    exists k ::
      && 0 <= k < |features| && EqIgnoreAsciiCase(features[k].name, e.feature) && features[k].kind == kind
      && forall j | 0 <= j < k :: !EqIgnoreAsciiCase(features[j].name, e.feature)
  }

  /** No feature of the end's component bears the end's name: the connection ends on the component. */
  predicate NamesNothing(inst: Instance, e: Endpoint)
    requires inst.Has(e.comp)
  {
    forall k | 0 <= k < |inst.components[e.comp].features| ::
      !EqIgnoreAsciiCase(inst.components[e.comp].features[k].name, e.feature)
  }

  lemma {:induction false} KindOfMeans(features: seq<Feature>, name: string) returns (k: nat)
    ensures match KindOf(features, name)
            case Some(kind) =>
              && k < |features| && EqIgnoreAsciiCase(features[k].name, name) && features[k].kind == kind
              && forall j | 0 <= j < k :: !EqIgnoreAsciiCase(features[j].name, name)
            case None => forall j | 0 <= j < |features| :: !EqIgnoreAsciiCase(features[j].name, name)
  {
    k := 0;
    if features != [] && !EqIgnoreAsciiCase(features[0].name, name) {
      var n := KindOfMeans(features[1..], name);
      k := n + 1;
      forall j | 0 < j < |features| ensures features[j] == features[1..][j - 1] { }
    }
  }

  lemma EndMeans(inst: Instance, e: Endpoint, kind: FeatureKind)
    requires inst.Has(e.comp)
    ensures NamesFeature(inst, e, kind) <==> EndpointKind(inst, e) == Some(kind)
    ensures NamesNothing(inst, e) <==> EndpointKind(inst, e) == None
  {
    var features := inst.components[e.comp].features;
    var k := KindOfMeans(features, e.feature);
    if NamesFeature(inst, e, kind) {
      var i :| 0 <= i < |features| && EqIgnoreAsciiCase(features[i].name, e.feature) && features[i].kind == kind
        && forall j | 0 <= j < i :: !EqIgnoreAsciiCase(features[j].name, e.feature);
      assert EndpointKind(inst, e).Some? && i == k;
    }
  }

  /** The end names an access feature of some kind. */
  ghost predicate NamesAccess(inst: Instance, e: Endpoint)
    requires inst.Has(e.comp)
  {
    || NamesFeature(inst, e, DataAccess) || NamesFeature(inst, e, BusAccess)
    || NamesFeature(inst, e, SubprogramAccess) || NamesFeature(inst, e, SubprogramGroupAccess)
  }

  lemma AccessMeans(inst: Instance, e: Endpoint)
    requires inst.Has(e.comp)
    ensures NamesAccess(inst, e) <==> IsAccess(EndpointKind(inst, e))
  {
    EndMeans(inst, e, DataAccess);
    EndMeans(inst, e, BusAccess);
    EndMeans(inst, e, SubprogramAccess);
    EndMeans(inst, e, SubprogramGroupAccess);
  }

  // ---- The data that a connection reaches ----

  /** The connection gives access: by its kind, or by an access feature at an end. */
  ghost predicate GivesAccess(inst: Instance, c: Connection)
    requires Linked(inst, c)
  {
    c.kind == AccessConn || NamesAccess(inst, c.source) || NamesAccess(inst, c.destination)
  }

  /** What is accessed is data: a data access feature is named, or the component is a data component. */
  ghost predicate OfData(inst: Instance, c: Connection, r: nat)
    requires Linked(inst, c) && inst.Has(r)
  {
    || NamesFeature(inst, c.source, DataAccess) || NamesFeature(inst, c.destination, DataAccess)
    || inst.components[r].category == Data
  }

  /**
   The connection reaches the data `r`. It ends on the component itself, without naming a feature
   of it; if both ends name a feature, or neither, `r` is the source.
   */
  ghost predicate ReachesData(inst: Instance, c: Connection, r: nat)
    requires Linked(inst, c)
  {
    && inst.Has(r) && GivesAccess(inst, c) && OfData(inst, c, r)
    && ((r == c.destination.comp && NamesNothing(inst, c.destination) && !NamesNothing(inst, c.source))
        || (r == c.source.comp && NamesNothing(inst, c.source))
        || (r == c.source.comp && !NamesNothing(inst, c.destination)))
  }

  lemma ResourceMeans(inst: Instance, c: Connection, r: nat)
    requires Linked(inst, c)
    ensures SharedResource(inst, c) == Some(r) <==> ReachesData(inst, c, r)
  {
    AccessMeans(inst, c.source);
    AccessMeans(inst, c.destination);
    EndMeans(inst, c.source, DataAccess);
    EndMeans(inst, c.destination, DataAccess);
  }

  // ---- The partition an end lies in ----

  /** The nearest virtual processor above the process; or, if there is none, the one it is bound to. */
  ghost predicate RunsOn(inst: Instance, process: nat, vp: nat)
    requires inst.Valid() && inst.Has(process)
  {
    var comp := inst.components[process];
    if exists n, d :: comp.parent.Some? && FirstUp(inst, comp.parent.value, n, d, VirtualProcessor)
    then exists n :: FirstUp(inst, comp.parent.value, n, vp, VirtualProcessor)
    else comp.properties.binding == BoundTo(vp) && inst.Has(vp) && inst.components[vp].category == VirtualProcessor
  }

  /** The end lies in the process, and the process runs on the virtual processor. */
  ghost predicate LiesIn(inst: Instance, comp: nat, user: User)
    requires inst.Valid() && inst.Has(comp)
  {
    && (exists n :: FirstUp(inst, comp, n, user.0, Process))
    && inst.Has(user.0) && RunsOn(inst, user.0, user.1)
  }

  lemma OwnerMeans(inst: Instance, process: nat, vp: nat)
    requires inst.Valid() && inst.Has(process)
    ensures RunsOn(inst, process, vp) <==> OwnerOf(inst, process) == Some(vp)
  {
    var comp := inst.components[process];
    if comp.parent.Some? {
      forall d: nat ensures Nearest(inst, comp.parent, VirtualProcessor) == Some(d)
        <==> exists n :: FirstUp(inst, comp.parent.value, n, d, VirtualProcessor)
      {
        NearestMeans(inst, comp.parent.value, VirtualProcessor, d);
      }
    }
  }

  lemma LiesInMeans(inst: Instance, comp: nat, user: User)
    requires inst.Valid() && inst.Has(comp)
    ensures LiesIn(inst, comp, user) <==> EndpointPartition(inst, comp) == Some(user)
  {
    NearestMeans(inst, comp, Process, user.0);
    NearestExists(inst, Some(comp), Process);
    if inst.Has(user.0) { OwnerMeans(inst, user.0, user.1); }
  }

  // ---- What the check reports ----

  /** A connection that reaches the data has an end in the process, on the partition. */
  ghost predicate UsedBy(inst: Instance, c: Connection, r: nat, user: User)
    requires inst.Valid() && Linked(inst, c)
  {
    ReachesData(inst, c, r) && (LiesIn(inst, c.source.comp, user) || LiesIn(inst, c.destination.comp, user))
  }

  lemma UsesMeans(inst: Instance, c: Connection, r: nat, user: User)
    requires inst.Valid() && Linked(inst, c)
    ensures Uses(inst, c, r, user) <==> UsedBy(inst, c, r, user)
  {
    ResourceMeans(inst, c, r);
    LiesInMeans(inst, c.source.comp, user);
    LiesInMeans(inst, c.destination.comp, user);
  }

  function Report(inst: Instance): seq<Diagnostic>
    requires inst.Valid() && AllLinked(inst, inst.connections)
  {
    EventWarnings(inst, inst.connections) + SharingErrors(Accumulate(inst, inst.connections))
  }

  ghost predicate ReachedBy(inst: Instance, r: nat, user: User)
    requires inst.Valid() && AllLinked(inst, inst.connections)
  {
    exists i | 0 <= i < |inst.connections| :: UsedBy(inst, inst.connections[i], r, user)
  }

  lemma ReachesMeans(inst: Instance, r: nat, user: User)
    requires inst.Valid() && AllLinked(inst, inst.connections)
    ensures Reaches(inst, inst.connections, r, user) <==> ReachedBy(inst, r, user)
  {
    forall i | 0 <= i < |inst.connections|
      ensures Uses(inst, inst.connections[i], r, user) <==> UsedBy(inst, inst.connections[i], r, user)
    {
      UsesMeans(inst, inst.connections[i], r, user);
    }
  }

  /** The data is reached from processes on different partitions. */
  ghost predicate ReachedFromTwo(inst: Instance, r: nat)
    requires inst.Valid() && AllLinked(inst, inst.connections)
  {
    exists u: User, v: User :: u.1 != v.1 && ReachedBy(inst, r, u) && ReachedBy(inst, r, v)
  }

  lemma SharedMeans(inst: Instance, r: nat)
    requires inst.Valid() && AllLinked(inst, inst.connections)
    ensures SharedAcross(inst, inst.connections, r) <==> ReachedFromTwo(inst, r)
  {
    forall user: User ensures Reaches(inst, inst.connections, r, user) <==> ReachedBy(inst, r, user) {
      ReachesMeans(inst, r, user);
    }
  }

  /** Exactly one error for each component that is so reached, and none for any other. */
  lemma OneErrorEach(inst: Instance, r: nat)
    requires inst.Valid() && AllLinked(inst, inst.connections)
    ensures ErrorsFor(Report(inst), r) == if ReachedFromTwo(inst, r) then 1 else 0
  {
    IsolationIsExact(inst, inst.connections, r);
    SharedMeans(inst, r);
  }

  /** In particular: data that two threads reach through their own data access features. */
  lemma SharedDataIsReported(inst: Instance, r: nat, i: nat, j: nat, u: User, v: User)
    requires inst.Valid() && AllLinked(inst, inst.connections) && inst.Has(r)
    requires i < |inst.connections| && j < |inst.connections| && u.1 != v.1
    requires var c := inst.connections[i];
      c.source.comp == r && NamesNothing(inst, c.source) && NamesFeature(inst, c.destination, DataAccess)
      && LiesIn(inst, c.destination.comp, u)
    requires var c := inst.connections[j];
      c.source.comp == r && NamesNothing(inst, c.source) && NamesFeature(inst, c.destination, DataAccess)
      && LiesIn(inst, c.destination.comp, v)
    ensures ErrorsFor(Report(inst), r) == 1
  {
    assert UsedBy(inst, inst.connections[i], r, u) && UsedBy(inst, inst.connections[j], r, v);
    assert ReachedBy(inst, r, u) && ReachedBy(inst, r, v);
    OneErrorEach(inst, r);
  }

  /**
   A component that every connection reaches through a feature of its own is not blamed, unless it
   is the source of a connection whose ends both name features.
   */
  lemma AccessorIsNotBlamed(inst: Instance, r: nat)
    requires inst.Valid() && AllLinked(inst, inst.connections)
    requires forall i | 0 <= i < |inst.connections| ::
      var c := inst.connections[i];
      && (c.source.comp == r ==> !NamesNothing(inst, c.source) && NamesNothing(inst, c.destination))
      && (c.destination.comp == r ==> !NamesNothing(inst, c.destination))
    ensures ErrorsFor(Report(inst), r) == 0
  {
    OneErrorEach(inst, r);
  }

  /** An error lists exactly the processes, with their partitions, that reach the data. */
  lemma ErrorListsUsers(inst: Instance, d: Diagnostic, user: User)
    requires inst.Valid() && AllLinked(inst, inst.connections)
    requires d in Report(inst) && d.Severity() == Error
    ensures d.DataShared?
    ensures user in d.users <==> ReachedBy(inst, d.resource, user)
    ensures forall i, j | 0 <= i < j < |d.users| :: d.users[i] != d.users[j]
  {
    var conns := inst.connections;
    var shared := Accumulate(inst, conns);
    if d in EventWarnings(inst, conns) { WarningIsOfConnection(inst, conns, d); }
    ErrorIsOfEntry(shared, d);
    AccumulateIsExact(inst, conns, d.resource, user);
    var k :| 0 <= k < |shared| && shared[k] == Entry(d.resource, d.users);
    IndexIs(shared, d.resource, k);
    UsersDistinct(inst, conns);
    ReachesMeans(inst, d.resource, user);
  }

  predicate Distinct(users: seq<User>) {
    forall i, j | 0 <= i < j < |users| :: users[i] != users[j]
  }

  lemma {:induction false} AddUsersDistinct(users: seq<User>, more: seq<User>)
    requires Distinct(users)
    ensures Distinct(AddUsers(users, more))
  {
    if more != [] { AddUsersDistinct(users, more[..|more| - 1]); }
  }

  /** No process is noted twice for the same data. */
  lemma {:induction false} UsersDistinct(inst: Instance, conns: seq<Connection>)
    requires inst.Valid() && AllLinked(inst, conns)
    ensures forall k | 0 <= k < |Accumulate(inst, conns)| :: Distinct(Accumulate(inst, conns)[k].users)
  {
    if conns != [] {
      var n := |conns| - 1;
      UsersDistinct(inst, conns[..n]);
      AddedDistinct(inst, Accumulate(inst, conns[..n]), conns[n]);
    }
  }

  lemma AddedDistinct(inst: Instance, shared: seq<Entry>, c: Connection)
    requires inst.Valid() && Linked(inst, c) && forall k | 0 <= k < |shared| :: Distinct(shared[k].users)
    ensures forall k | 0 <= k < |Added(inst, shared, c)| :: Distinct(Added(inst, shared, c)[k].users)
  {
    var resource := SharedResource(inst, c);
    if resource.Some? {
      var i := IndexOf(shared, resource.value);
      AddUsersDistinct(if i < |shared| then shared[i].users else [], UsersOf(inst, c));
    }
  }

  lemma {:induction false} ErrorIsOfEntry(shared: seq<Entry>, d: Diagnostic)
    requires d in SharingErrors(shared)
    ensures d.DataShared? && exists k :: 0 <= k < |shared| && shared[k] == Entry(d.resource, d.users)
  {
    var n := |shared| - 1;
    if d in SharingErrors(shared[..n]) {
      ErrorIsOfEntry(shared[..n], d);
      var k :| 0 <= k < n && shared[..n][k] == Entry(d.resource, d.users);
      assert shared[k] == Entry(d.resource, d.users);
    } else {
      assert shared[n] == Entry(d.resource, d.users);
    }
  }

  // ---- Warnings ----

  /** The connection gives no access, and carries events between processes on different partitions. */
  ghost predicate CarriesEvents(inst: Instance, c: Connection, s: User, t: User)
    requires inst.Valid() && Linked(inst, c)
  {
    && !GivesAccess(inst, c)
    && (NamesFeature(inst, c.source, EventPort) || NamesFeature(inst, c.destination, EventPort))
    && LiesIn(inst, c.source.comp, s) && LiesIn(inst, c.destination.comp, t) && s.1 != t.1
  }

  lemma CrossingMeans(inst: Instance, c: Connection, s: User, t: User)
    requires inst.Valid() && Linked(inst, c)
    ensures CarriesEvents(inst, c, s, t) <==>
      && IsEventCrossing(inst, c)
      && EndpointPartition(inst, c.source.comp) == Some(s) && EndpointPartition(inst, c.destination.comp) == Some(t)
  {
    AccessMeans(inst, c.source);
    AccessMeans(inst, c.destination);
    EndMeans(inst, c.source, EventPort);
    EndMeans(inst, c.destination, EventPort);
    LiesInMeans(inst, c.source.comp, s);
    LiesInMeans(inst, c.destination.comp, t);
  }

  lemma WarnedMeans(inst: Instance, c: Connection, k: nat, d: Diagnostic)
    requires inst.Valid() && Linked(inst, c)
    ensures d in Warned(inst, c, k) <==>
      d.EventCrossing? && d.connection == k && CarriesEvents(inst, c, d.source, d.destination)
  {
    if d.EventCrossing? { CrossingMeans(inst, c, d.source, d.destination); }
  }

  lemma {:induction false} WarningIsOfConnection(inst: Instance, conns: seq<Connection>, d: Diagnostic)
    requires inst.Valid() && AllLinked(inst, conns)
    ensures d in EventWarnings(inst, conns) <==>
      && d.EventCrossing? && d.connection < |conns|
      && CarriesEvents(inst, conns[d.connection], d.source, d.destination)
  {
    if conns != [] {
      var n := |conns| - 1;
      WarningIsOfConnection(inst, conns[..n], d);
      WarnedMeans(inst, conns[n], n, d);
      LastWarning(inst, conns, d);
    }
  }

  lemma LastWarning(inst: Instance, conns: seq<Connection>, d: Diagnostic)
    requires inst.Valid() && AllLinked(inst, conns) && conns != []
    ensures var n := |conns| - 1;
      d in EventWarnings(inst, conns) <==> d in EventWarnings(inst, conns[..n]) || d in Warned(inst, conns[n], n)
  {
  }

  /** The findings hold a warning about exactly those connections, with the processes at their ends. */
  lemma WarningsMean(inst: Instance, k: nat, s: User, t: User)
    requires inst.Valid() && AllLinked(inst, inst.connections)
    ensures EventCrossing(k, s, t) in Report(inst) <==>
      k < |inst.connections| && CarriesEvents(inst, inst.connections[k], s, t)
    ensures EventCrossing(k, s, t).Severity() == Warning
  {
    var d := EventCrossing(k, s, t);
    WarningIsOfConnection(inst, inst.connections, d);
    if d in SharingErrors(Accumulate(inst, inst.connections)) {
      ErrorIsOfEntry(Accumulate(inst, inst.connections), d);
    }
  }
}
