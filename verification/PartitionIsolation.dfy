/**
 Isolation of ARINC 653 partitions (ARINC 653 Part 1, section 2.3.5): partitions communicate
 through ports; data reached by access connections from two partitions is an error.
 */
module PartitionIsolation {
  import opened Arith
  import opened Sequences
  import opened Instances
  import opened Diagnostics

  // ---- Endpoints ----

  /** The virtual processor a process runs on: by containment, else by explicit binding. */
  function OwnerOf(inst: Instance, idx: nat): Option<nat>
    requires inst.Valid() && inst.Has(idx)
  {
    match Partition(inst, idx)
    case Some(vp) => Some(vp)
    case None =>
      match inst.components[idx].properties.binding
      case BoundTo(vp) =>
        if inst.Has(vp) && inst.components[vp].category == VirtualProcessor then Some(vp) else None
      case _ => None
  }

  /** The nearest enclosing process of an endpoint, with the partition that owns it. */
  function EndpointPartition(inst: Instance, comp: nat): Option<User>
    requires inst.Valid() && inst.Has(comp)
  {
    match Nearest(inst, Some(comp), Process)
    case None => None
    case Some(process) =>
      NearestExists(inst, Some(comp), Process);
      match OwnerOf(inst, process)
      case None => None
      case Some(vp) => Some((process, vp))
  }

  lemma {:induction false} NearestExists(inst: Instance, current: Option<nat>, category: Category)
    requires inst.Valid() && (current.Some? ==> inst.Has(current.value))
    ensures var r := Nearest(inst, current, category); r.Some? ==> inst.Has(r.value)
    decreases if current.Some? then current.value + 1 else 0
  {
    if current.Some? && inst.components[current.value].category != category {
      NearestExists(inst, inst.components[current.value].parent, category);
    }
  }

  /** The kind of the first feature with the given name. */
  function KindOf(features: seq<Feature>, name: string): Option<FeatureKind> {
    if features == [] then None
    else if EqIgnoreAsciiCase(features[0].name, name) then Some(features[0].kind)
    else KindOf(features[1..], name)
  }

  function EndpointKind(inst: Instance, e: Endpoint): Option<FeatureKind>
    requires inst.Has(e.comp)
  {
    KindOf(inst.components[e.comp].features, e.feature)
  }

  predicate IsAccess(kind: Option<FeatureKind>) {
    kind in {Some(DataAccess), Some(BusAccess), Some(SubprogramAccess), Some(SubprogramGroupAccess)}
  }

  predicate Linked(inst: Instance, c: Connection) {
    inst.Has(c.source.comp) && inst.Has(c.destination.comp)
  }

  predicate IsAccessConnection(inst: Instance, c: Connection)
    requires Linked(inst, c)
  {
    c.kind == AccessConn || IsAccess(EndpointKind(inst, c.source)) || IsAccess(EndpointKind(inst, c.destination))
  }

  /** The accessed component of a data access connection: the end that names no feature of its own. */
  function SharedResource(inst: Instance, c: Connection): Option<nat>
    requires Linked(inst, c)
  {
    var src, dst := EndpointKind(inst, c.source), EndpointKind(inst, c.destination);
    var resource := if dst.None? && src.Some? then c.destination.comp else c.source.comp;
    if !IsAccessConnection(inst, c) then None
    else if src == Some(DataAccess) || dst == Some(DataAccess) || inst.components[resource].category == Data
    then Some(resource)
    else None
  }

  function Both(a: Option<User>, b: Option<User>): seq<User> {
    (if a.Some? then [a.value] else []) + (if b.Some? then [b.value] else [])
  }

  /** The processes at the two ends, with their partitions. */
  function UsersOf(inst: Instance, c: Connection): seq<User>
    requires inst.Valid() && Linked(inst, c)
  {
    Both(EndpointPartition(inst, c.source.comp), EndpointPartition(inst, c.destination.comp))
  }

  /** A port connection between partitions that carries events only. */
  predicate IsEventCrossing(inst: Instance, c: Connection)
    requires inst.Valid() && Linked(inst, c)
  {
    var src, dst := EndpointKind(inst, c.source), EndpointKind(inst, c.destination);
    var s, d := EndpointPartition(inst, c.source.comp), EndpointPartition(inst, c.destination.comp);
    && !IsAccessConnection(inst, c)
    && s.Some? && d.Some? && s.value.1 != d.value.1
    && (src == Some(EventPort) || dst == Some(EventPort))
  }

  // ---- What the property says, without any accumulator ----

  predicate AllLinked(inst: Instance, conns: seq<Connection>) {
    forall i | 0 <= i < |conns| :: Linked(inst, conns[i])
  }

  /** A data access connection to `resource` with the process and partition at one end. */
  predicate Uses(inst: Instance, c: Connection, resource: nat, user: User)
    requires inst.Valid() && Linked(inst, c)
  {
    SharedResource(inst, c) == Some(resource) && user in UsersOf(inst, c)
  }

  /** Some data access connection to `resource` has the process and partition at one end. */
  predicate Reaches(inst: Instance, conns: seq<Connection>, resource: nat, user: User)
    requires inst.Valid() && AllLinked(inst, conns)
  {
    exists i | 0 <= i < |conns| :: Uses(inst, conns[i], resource, user)
  }

  /** The data is reached from two different partitions. */
  ghost predicate SharedAcross(inst: Instance, conns: seq<Connection>, resource: nat)
    requires inst.Valid() && AllLinked(inst, conns)
  {
    exists u: User, v: User :: u.1 != v.1 && Reaches(inst, conns, resource, u) && Reaches(inst, conns, resource, v)
  }

  // ---- The accumulator ----

  /** An accessed component and the users that reach it, in first-seen order. */
  datatype Entry = Entry(resource: nat, users: seq<User>)

  function AddUser(users: seq<User>, u: User): seq<User> {
    if u in users then users else users + [u]
  }

  function AddUsers(users: seq<User>, more: seq<User>): seq<User> {
    if more == [] then users else AddUser(AddUsers(users, more[..|more| - 1]), more[|more| - 1])
  }

  function IndexOf(shared: seq<Entry>, resource: nat): (i: nat)
    ensures i <= |shared|
    ensures i < |shared| ==> shared[i].resource == resource
    ensures forall k | 0 <= k < i :: shared[k].resource != resource
  {
    if shared == [] || shared[0].resource == resource then 0 else 1 + IndexOf(shared[1..], resource)
  }

  function Insert(shared: seq<Entry>, resource: nat, users: seq<User>): seq<Entry> {
    var i := IndexOf(shared, resource);
    if i < |shared| then shared[i := Entry(resource, AddUsers(shared[i].users, users))]
    else shared + [Entry(resource, AddUsers([], users))]
  }

  /** What one connection adds to the accumulator. */
  function Added(inst: Instance, shared: seq<Entry>, c: Connection): seq<Entry>
    requires inst.Valid() && Linked(inst, c)
  {
    match SharedResource(inst, c)
    case None => shared
    case Some(resource) => Insert(shared, resource, UsersOf(inst, c))
  }

  /** What one connection, the `k`-th, adds to the findings. */
  function Warned(inst: Instance, c: Connection, k: nat): seq<Diagnostic>
    requires inst.Valid() && Linked(inst, c)
  {
    if IsEventCrossing(inst, c)
    then [EventCrossing(k, EndpointPartition(inst, c.source.comp).value,
                        EndpointPartition(inst, c.destination.comp).value)]
    else []
  }

  function Accumulate(inst: Instance, conns: seq<Connection>): seq<Entry>
    requires inst.Valid() && AllLinked(inst, conns)
  {
    if conns == [] then []
    else
      var n := |conns| - 1;
      Added(inst, Accumulate(inst, conns[..n]), conns[n])
  }

  predicate CrossesPartitions(users: seq<User>) {
    exists i, j | 0 <= i < |users| && 0 <= j < |users| :: users[i].1 != users[j].1
  }

  function SharingErrors(shared: seq<Entry>): seq<Diagnostic> {
    if shared == [] then []
    else
      var last := shared[|shared| - 1];
      SharingErrors(shared[..|shared| - 1]) +
      if CrossesPartitions(last.users) then [DataShared(last.resource, last.users)] else []
  }

  function EventWarnings(inst: Instance, conns: seq<Connection>): seq<Diagnostic>
    requires inst.Valid() && AllLinked(inst, conns)
  {
    if conns == [] then []
    else
      var n := |conns| - 1;
      EventWarnings(inst, conns[..n]) + Warned(inst, conns[n], n)
  }

  // ---- The check ----

  method DistinctPartitions(users: seq<User>) returns (partitions: seq<nat>)
    ensures |partitions| < 2 <==> !CrossesPartitions(users)
  {
    partitions := [];
    for k := 0 to |users|
      invariant forall i | 0 <= i < k :: users[i].1 in partitions
      invariant forall p | p in partitions :: exists i | 0 <= i < k :: users[i].1 == p
      invariant forall i, j | 0 <= i < j < |partitions| :: partitions[i] != partitions[j]
      invariant 0 < k ==> partitions != []
    {
      if users[k].1 !in partitions {
        partitions := partitions + [users[k].1];
      }
    }
    if 2 <= |partitions| {
      assert partitions[0] in partitions && partitions[1] in partitions;
    }
  }

  /** Notes that `users` reach `resource`, in place of or after the entries so far. */
  method RecordUse(shared: seq<Entry>, resource: nat, users: seq<User>) returns (updated: seq<Entry>)
    ensures updated == Insert(shared, resource, users)
  {
    updated := shared;
    var i := IndexOf(shared, resource);
    if i == |shared| {
      updated := updated + [Entry(resource, [])];
    }
    ghost var before := updated;
    for m := 0 to |users|
      invariant updated == before[i := Entry(resource, AddUsers(before[i].users, users[..m]))]
    {
      assert users[..m + 1][..m] == users[..m];
      if users[m] !in updated[i].users {
        updated := updated[i := Entry(resource, updated[i].users + [users[m]])];
      }
    }
    assert users[..|users|] == users;
  }

  method ReportShared(shared: seq<Entry>, log: Log)
    modifies log
    ensures log.items == old(log.items) + SharingErrors(shared)
  {
    for k := 0 to |shared|
      invariant log.items == old(log.items) + SharingErrors(shared[..k])
    {
      assert shared[..k + 1][..k] == shared[..k];
      var partitions := DistinctPartitions(shared[k].users);
      if 2 <= |partitions| {
        log.Push(DataShared(shared[k].resource, shared[k].users));
      }
    }
    assert shared[..|shared|] == shared;
  }

  /** One turn of the loop over connections. */
  method ExamineConnection(inst: Instance, c: Connection, k: nat, shared: seq<Entry>, log: Log)
    returns (updated: seq<Entry>)
    requires inst.Valid() && Linked(inst, c)
    modifies log
    ensures updated == Added(inst, shared, c)
    ensures log.items == old(log.items) + Warned(inst, c, k)
  {
    updated := shared;
    var srcKind, dstKind := EndpointKind(inst, c.source), EndpointKind(inst, c.destination);
    var srcPart, dstPart := EndpointPartition(inst, c.source.comp), EndpointPartition(inst, c.destination.comp);
    if c.kind == AccessConn || IsAccess(srcKind) || IsAccess(dstKind) {
      var resource := if dstKind.None? && srcKind.Some? then c.destination.comp else c.source.comp;
      if srcKind == Some(DataAccess) || dstKind == Some(DataAccess) || inst.components[resource].category == Data {
        updated := RecordUse(shared, resource, Both(srcPart, dstPart));
      }
      return;
    }
    if srcPart.Some? && dstPart.Some? && srcPart.value.1 != dstPart.value.1
       && (srcKind == Some(EventPort) || dstKind == Some(EventPort)) {
      log.Push(EventCrossing(k, srcPart.value, dstPart.value));
    }
  }

  method CheckPartitionIsolation(inst: Instance, log: Log)
    requires inst.Valid()
    modifies log
    ensures AllLinked(inst, inst.connections)
    ensures log.items == old(log.items) + EventWarnings(inst, inst.connections)
                       + SharingErrors(Accumulate(inst, inst.connections))
  {
    var conns := inst.connections;
    var shared: seq<Entry> := [];
    ghost var warned: seq<Diagnostic> := [];
    for k := 0 to |conns|
      invariant shared == Accumulate(inst, conns[..k])
      invariant warned == EventWarnings(inst, conns[..k])
      invariant log.items == old(log.items) + warned
    {
      ghost var more := Warned(inst, conns[k], k);
      shared := ExamineConnection(inst, conns[k], k, shared, log);
      ConnectionNext(inst, conns, k);
      Regroup(old(log.items), warned, more);
      warned := warned + more;
    }
    assert conns[..|conns|] == conns;
    ReportShared(shared, log);
  }

  lemma ConnectionNext(inst: Instance, conns: seq<Connection>, k: nat)
    requires inst.Valid() && AllLinked(inst, conns) && k < |conns|
    ensures Accumulate(inst, conns[..k + 1]) == Added(inst, Accumulate(inst, conns[..k]), conns[k])
    ensures EventWarnings(inst, conns[..k + 1]) == EventWarnings(inst, conns[..k]) + Warned(inst, conns[k], k)
  {
    assert conns[..k + 1][..k] == conns[..k];
  }

  // ---- The accumulator says what the property says ----

  predicate NoRepeats(shared: seq<Entry>) {
    forall i, j | 0 <= i < j < |shared| :: shared[i].resource != shared[j].resource
  }

  lemma {:induction false} AddUsersIsUnion(users: seq<User>, more: seq<User>, u: User)
    ensures u in AddUsers(users, more) <==> u in users || u in more
  {
    if more != [] {
      var n := |more| - 1;
      AddUsersIsUnion(users, more[..n], u);
      assert more == more[..n] + [more[n]];
    }
  }

  /** What the accumulator knows about a resource. */
  function UsersAt(shared: seq<Entry>, resource: nat): seq<User> {
    var i := IndexOf(shared, resource);
    if i < |shared| then shared[i].users else []
  }

  lemma IndexIs(shared: seq<Entry>, resource: nat, i: nat)
    requires i <= |shared| && (i < |shared| ==> shared[i].resource == resource)
    requires forall k | 0 <= k < i :: shared[k].resource != resource
    ensures IndexOf(shared, resource) == i
  {
  }

  lemma InsertKeeps(shared: seq<Entry>, r: nat, users: seq<User>, q: nat)
    ensures NoRepeats(shared) ==> NoRepeats(Insert(shared, r, users))
    ensures UsersAt(Insert(shared, r, users), q)
         == if q == r then AddUsers(UsersAt(shared, r), users) else UsersAt(shared, q)
    ensures IndexOf(Insert(shared, r, users), q) < |Insert(shared, r, users)|
       <==> q == r || IndexOf(shared, q) < |shared|
  {
    var i, j := IndexOf(shared, r), IndexOf(shared, q);
    var shared' := Insert(shared, r, users);
    if j < |shared| {
      IndexIs(shared', q, j);
    } else {
      IndexIs(shared', q, if q == r then |shared| else |shared'|);
    }
  }

  predicate Named(inst: Instance, conns: seq<Connection>, resource: nat)
    requires AllLinked(inst, conns)
  {
    exists i | 0 <= i < |conns| :: SharedResource(inst, conns[i]) == Some(resource)
  }

  /** One more connection changes what is known about the resource it names, and nothing else. */
  lemma AddedKeeps(inst: Instance, shared: seq<Entry>, c: Connection, r: nat, u: User)
    requires inst.Valid() && Linked(inst, c)
    ensures var shared' := Added(inst, shared, c);
      && (NoRepeats(shared) ==> NoRepeats(shared'))
      && (IndexOf(shared', r) < |shared'| <==> IndexOf(shared, r) < |shared| || SharedResource(inst, c) == Some(r))
      && (u in UsersAt(shared', r) <==> u in UsersAt(shared, r) || Uses(inst, c, r, u))
  {
    var resource := SharedResource(inst, c);
    if resource.Some? {
      InsertKeeps(shared, resource.value, UsersOf(inst, c), r);
      AddUsersIsUnion(UsersAt(shared, r), UsersOf(inst, c), u);
    }
  }

  /** One entry for each resource that a data access connection names, with exactly its users. */
  lemma {:induction false} AccumulateIsExact(inst: Instance, conns: seq<Connection>, r: nat, u: User)
    requires inst.Valid() && AllLinked(inst, conns)
    ensures NoRepeats(Accumulate(inst, conns))
    ensures IndexOf(Accumulate(inst, conns), r) < |Accumulate(inst, conns)| <==> Named(inst, conns, r)
    ensures u in UsersAt(Accumulate(inst, conns), r) <==> Reaches(inst, conns, r, u)
  {
    if conns != [] {
      var n := |conns| - 1;
      AccumulateIsExact(inst, conns[..n], r, u);
      ReachesLast(inst, conns, r, u);
      NamedLast(inst, conns, r);
      AddedKeeps(inst, Accumulate(inst, conns[..n]), conns[n], r, u);
    }
  }

  lemma ReachesLast(inst: Instance, conns: seq<Connection>, r: nat, u: User)
    requires inst.Valid() && AllLinked(inst, conns) && conns != []
    ensures var n := |conns| - 1;
      Reaches(inst, conns, r, u) <==> Reaches(inst, conns[..n], r, u) || Uses(inst, conns[n], r, u)
  {
    var n := |conns| - 1;
    if Reaches(inst, conns, r, u) {
      var i :| 0 <= i < |conns| && Uses(inst, conns[i], r, u);
      assert i < n ==> conns[..n][i] == conns[i];
    }
    if Reaches(inst, conns[..n], r, u) {
      var i :| 0 <= i < n && Uses(inst, conns[..n][i], r, u);
      assert Uses(inst, conns[i], r, u);
    }
  }

  lemma NamedLast(inst: Instance, conns: seq<Connection>, r: nat)
    requires AllLinked(inst, conns) && conns != []
    ensures var n := |conns| - 1;
      Named(inst, conns, r) <==> Named(inst, conns[..n], r) || SharedResource(inst, conns[n]) == Some(r)
  {
    var n := |conns| - 1;
    if Named(inst, conns[..n], r) {
      var i :| 0 <= i < n && SharedResource(inst, conns[..n][i]) == Some(r);
      assert SharedResource(inst, conns[i]) == Some(r);
    }
    if Named(inst, conns, r) {
      var i :| 0 <= i < |conns| && SharedResource(inst, conns[i]) == Some(r);
      assert i < n ==> conns[..n][i] == conns[i];
    }
  }

  // ---- The reported resources ----

  /** How many errors name the resource. */
  function ErrorsFor(diags: seq<Diagnostic>, resource: nat): nat {
    if diags == [] then 0
    else
      var last := diags[|diags| - 1];
      ErrorsFor(diags[..|diags| - 1], resource) +
      if last.Severity() == Error && last.DataShared? && last.resource == resource then 1 else 0
  }

  lemma {:induction false} ErrorsForAppend(a: seq<Diagnostic>, b: seq<Diagnostic>, resource: nat)
    ensures ErrorsFor(a + b, resource) == ErrorsFor(a, resource) + ErrorsFor(b, resource)
  {
    if b == [] {
      assert a + b == a;
    } else {
      assert (a + b)[..|a + b| - 1] == a + b[..|b| - 1];
      ErrorsForAppend(a, b[..|b| - 1], resource);
    }
  }

  lemma {:induction false} NoErrorsInWarnings(inst: Instance, conns: seq<Connection>, resource: nat)
    requires inst.Valid() && AllLinked(inst, conns)
    ensures ErrorsFor(EventWarnings(inst, conns), resource) == 0
  {
    if conns != [] {
      var n := |conns| - 1;
      NoErrorsInWarnings(inst, conns[..n], resource);
      ErrorsForAppend(EventWarnings(inst, conns[..n]), Warned(inst, conns[n], n), resource);
    }
  }

  /** The last entry decides about its own resource and no other. */
  lemma LastEntry(shared: seq<Entry>, resource: nat)
    requires NoRepeats(shared) && shared != []
    ensures var n := |shared| - 1;
      UsersAt(shared, resource) == if shared[n].resource == resource then shared[n].users else UsersAt(shared[..n], resource)
    ensures var n := |shared| - 1; shared[n].resource == resource ==> UsersAt(shared[..n], resource) == []
  {
    var n := |shared| - 1;
    var before := shared[..n];
    if shared[n].resource == resource {
      IndexIs(shared, resource, n);
      IndexIs(before, resource, n);
    } else {
      var i := IndexOf(before, resource);
      IndexIs(shared, resource, if i < n then i else n + 1);
    }
  }

  lemma {:induction false} ErrorsOfEntries(shared: seq<Entry>, resource: nat)
    requires NoRepeats(shared)
    ensures ErrorsFor(SharingErrors(shared), resource)
         == if CrossesPartitions(UsersAt(shared, resource)) then 1 else 0
  {
    if shared != [] {
      var n := |shared| - 1;
      var last := shared[n];
      ErrorsOfEntries(shared[..n], resource);
      LastEntry(shared, resource);
      var added: seq<Diagnostic> :=
        if CrossesPartitions(last.users) then [DataShared(last.resource, last.users)] else [];
      ErrorsForAppend(SharingErrors(shared[..n]), added, resource);
    }
  }

  /**
   Exactly one error for each resource that data access connections reach from two or more
   partitions, and no error for any other.
   */
  lemma IsolationIsExact(inst: Instance, conns: seq<Connection>, resource: nat)
    requires inst.Valid() && AllLinked(inst, conns)
    ensures ErrorsFor(EventWarnings(inst, conns) + SharingErrors(Accumulate(inst, conns)), resource)
         == if SharedAcross(inst, conns, resource) then 1 else 0
  {
    var shared := Accumulate(inst, conns);
    var users := UsersAt(shared, resource);
    NoErrorsInWarnings(inst, conns, resource);
    ErrorsForAppend(EventWarnings(inst, conns), SharingErrors(shared), resource);
    AccumulateIsExact(inst, conns, resource, (0, 0));
    ErrorsOfEntries(shared, resource);
    if CrossesPartitions(users) {
      var i, j :| 0 <= i < |users| && 0 <= j < |users| && users[i].1 != users[j].1;
      AccumulateIsExact(inst, conns, resource, users[i]);
      AccumulateIsExact(inst, conns, resource, users[j]);
    } else if SharedAcross(inst, conns, resource) {
      var u: User, v: User :| u.1 != v.1 && Reaches(inst, conns, resource, u) && Reaches(inst, conns, resource, v);
      AccumulateIsExact(inst, conns, resource, u);
      AccumulateIsExact(inst, conns, resource, v);
    }
  }

  /**
   The reported resources do not depend on the order or repetition of connections, and adding
   connections never hides one.
   */
  lemma IsolationIsMonotone(inst: Instance, conns: seq<Connection>, more: seq<Connection>, resource: nat)
    requires inst.Valid() && AllLinked(inst, conns) && AllLinked(inst, more)
    requires forall c | c in conns :: c in more
    ensures SharedAcross(inst, conns, resource) ==> SharedAcross(inst, more, resource)
  {
    forall u: User | Reaches(inst, conns, resource, u) ensures Reaches(inst, more, resource, u) {
      var i :| 0 <= i < |conns| && Uses(inst, conns[i], resource, u);
      assert conns[i] in more;
      var j :| 0 <= j < |more| && more[j] == conns[i];
    }
  }

  predicate IsPort(kind: Option<FeatureKind>) {
    kind == Some(DataPort) || kind == Some(EventPort) || kind == Some(EventDataPort)
  }

  predicate IsPortConnection(inst: Instance, c: Connection)
    requires Linked(inst, c)
  {
    c.kind == PortConn && IsPort(EndpointKind(inst, c.source)) && IsPort(EndpointKind(inst, c.destination))
  }

  /** Port connections are the approved channel: adding any number of them never adds or hides an error. */
  lemma PortsShareNothing(inst: Instance, conns: seq<Connection>, others: seq<Connection>, resource: nat)
    requires inst.Valid() && AllLinked(inst, conns) && AllLinked(inst, others)
    requires forall c | c in others :: c in conns
    requires forall i | 0 <= i < |conns| :: conns[i] in others || IsPortConnection(inst, conns[i])
    ensures ErrorsFor(EventWarnings(inst, conns) + SharingErrors(Accumulate(inst, conns)), resource)
         == ErrorsFor(EventWarnings(inst, others) + SharingErrors(Accumulate(inst, others)), resource)
  {
    IsolationIsExact(inst, conns, resource);
    IsolationIsExact(inst, others, resource);
    IsolationIsMonotone(inst, others, conns, resource);
    if SharedAcross(inst, conns, resource) {
      var u: User, v: User :| u.1 != v.1 && Reaches(inst, conns, resource, u) && Reaches(inst, conns, resource, v);
      ReachedWithoutPorts(inst, conns, others, resource, u);
      ReachedWithoutPorts(inst, conns, others, resource, v);
    }
  }

  lemma ReachedWithoutPorts(inst: Instance, conns: seq<Connection>, others: seq<Connection>, resource: nat, u: User)
    requires inst.Valid() && AllLinked(inst, conns) && AllLinked(inst, others)
    requires forall i | 0 <= i < |conns| :: conns[i] in others || IsPortConnection(inst, conns[i])
    requires Reaches(inst, conns, resource, u)
    ensures Reaches(inst, others, resource, u)
  {
    var i :| 0 <= i < |conns| && Uses(inst, conns[i], resource, u);
    PortIsNoAccess(inst, conns[i]);
    var j :| 0 <= j < |others| && others[j] == conns[i];
    assert Uses(inst, others[j], resource, u);
  }

  lemma PortIsNoAccess(inst: Instance, c: Connection)
    requires Linked(inst, c)
    ensures IsPortConnection(inst, c) ==> SharedResource(inst, c) == None
  {
  }
}
