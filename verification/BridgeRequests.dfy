// Idempotent project requests (`bridge_service.py`, `bridge_repository.py`): any number of calls, each of which may
// stop or raise at any await, and the projects and versions they leave behind.
//
// Calls with different idempotency keys interleave freely; the calls of one key follow each other. The request
// fingerprint stands for the payload it is computed from, and identifiers are drawn from a counter.
module BridgeRequests {
  import opened Wrappers

  type Key = string        // service and idempotency key
  type Id = nat

  datatype Slug = Slug(workspace: string, name: string)

  datatype Payload = Payload(slug: Slug, brief: string)

  datatype RequestStatus = Reserved | Succeeded | Failed

  datatype Request = Request(id: Id, payload: Payload, status: RequestStatus, project: Option<Id>, version: Option<Id>)

  /** A project or a version carries the identifier of the bridge request it was made for. */
  datatype Project = Project(id: Id, request: Option<Id>)

  datatype Version = Version(id: Id, project: Id, request: Option<Id>)

  /** Where a call stands: the await it makes next. */
  datatype Pc =
    | CreateProject
    | EnsureProject
    | ListVersions(project: Id)
    | CreateVersion(project: Id)
    | CompleteRequest(project: Id, version: Id)
    | PushDelivery
    | FailRequest
  {
    function Rank(): nat {
      match this
      case CreateProject => 6
      case EnsureProject => 5
      case ListVersions(_) => 4
      case CreateVersion(_) => 3
      case CompleteRequest(_, _) => 2
      case PushDelivery => 1
      case FailRequest => 0
    }
  }

  datatype World = World(
    requests: map<Key, Request>,
    projects: map<Slug, Project>,
    versions: seq<Version>,
    nextId: Id,
    calls: map<Key, Pc>)

  const START := World(map[], map[], [], 0, map[])

  // ----- Steps

  datatype Step =
    | Begin(key: Key, payload: Payload)
    | Advance(key: Key)
    | Raise(key: Key)                        // the await raises; the call goes on to fail the request
    | Stop(key: Key)                         // the process stops
    | OtherProject(slug: Slug)               // somebody else creates a project
    | OtherVersion(project: Id)              // somebody else creates a version

  predicate Enabled(w: World, s: Step) {
    match s
    case Begin(key, _) => key !in w.calls
    case Advance(key) => key in w.calls && key in w.requests
    case Raise(key) => key in w.calls
    case Stop(key) => key in w.calls
    case OtherProject(slug) => slug !in w.projects
    case OtherVersion(_) => true
  }

  function Next(w: World, s: Step): World
    requires Enabled(w, s)
  {
    match s
    case Begin(key, payload) => Reserve(w, key, payload)
    case Advance(key) => Advanced(w, key)
    case Raise(key) => w.(calls := w.calls[key := FailRequest])
    case Stop(key) => w.(calls := w.calls - {key})
    case OtherProject(slug) => w.(projects := w.projects[slug := Project(w.nextId, None)], nextId := w.nextId + 1)
    case OtherVersion(project) => w.(versions := w.versions + [Version(w.nextId, project, None)],
      nextId := w.nextId + 1)
  }

  /** A key seen before with another payload conflicts, and a succeeded one is replayed: neither starts a call. */
  function Reserve(w: World, key: Key, payload: Payload): World {
    if key in w.requests then
      if w.requests[key].payload != payload || w.requests[key].status.Succeeded? then w
      else w.(calls := w.calls[key := CreateProject])
    else
      w.(requests := w.requests[key := Request(w.nextId, payload, Reserved, None, None)],
         nextId := w.nextId + 1,
         calls := w.calls[key := CreateProject])
  }

  /** The first version of the project that carries the request. */
  function FindVersion(versions: seq<Version>, project: Id, request: Id): (v: Option<Id>)
    ensures v.Some? ==> exists i :: 0 <= i < |versions| && versions[i] == Version(v.value, project, Some(request))
    ensures v.None? ==> forall i :: 0 <= i < |versions| ==>
      !(versions[i].project == project && versions[i].request == Some(request))
  {
    if versions == [] then None
    else if versions[0].project == project && versions[0].request == Some(request) then Some(versions[0].id)
    else
      var v := FindVersion(versions[1..], project, request);
      v
  }

  function Created(w: World, key: Key): World
    requires key in w.requests
  {
    var r := w.requests[key];
    w.(projects := w.projects[r.payload.slug := Project(w.nextId, Some(r.id))],
       nextId := w.nextId + 1,
       calls := w.calls[key := ListVersions(w.nextId)])
  }

  function Advanced(w: World, key: Key): World
    requires key in w.calls && key in w.requests
  {
    var r := w.requests[key];
    match w.calls[key]
    case CreateProject =>
      if r.payload.slug in w.projects then w.(calls := w.calls[key := EnsureProject]) else Created(w, key)
    case EnsureProject =>
      if r.payload.slug !in w.projects then Created(w, key)
      else if w.projects[r.payload.slug].request == Some(r.id)
      then w.(calls := w.calls[key := ListVersions(w.projects[r.payload.slug].id)])
      else w.(calls := w.calls[key := FailRequest])
    case ListVersions(project) =>
      (match FindVersion(w.versions, project, r.id)
       case Some(v) => w.(calls := w.calls[key := CompleteRequest(project, v)])
       case None => w.(calls := w.calls[key := CreateVersion(project)]))
    case CreateVersion(project) =>
      w.(versions := w.versions + [Version(w.nextId, project, Some(r.id))],
         nextId := w.nextId + 1,
         calls := w.calls[key := CompleteRequest(project, w.nextId)])
    case CompleteRequest(project, version) =>
      w.(requests := if r.status.Succeeded? then w.requests
                     else w.requests[key := r.(status := Succeeded, project := Some(project),
                       version := Some(version))],
         calls := w.calls[key := PushDelivery])
    case PushDelivery => w.(calls := w.calls - {key})
    case FailRequest => w.(requests := w.requests[key := r.(status := Failed)], calls := w.calls - {key})
  }

  // ----- What every step keeps

  /** The project `p` is the one made for the request of `key`. */
  predicate OwnProject(w: World, key: Key, p: Id)
    requires key in w.requests
  {
    var r := w.requests[key];
    r.payload.slug in w.projects && w.projects[r.payload.slug] == Project(p, Some(r.id))
  }

  ghost predicate OwnVersion(w: World, key: Key, p: Id, v: Id)
    requires key in w.requests
  {
    OwnProject(w, key, p) && exists i ::
      0 <= i < |w.versions| && w.versions[i] == Version(v, p, Some(w.requests[key].id))
  }

  predicate Carried(w: World, i: nat, request: Id) {
    i < |w.versions| && w.versions[i].request == Some(request)
  }

  ghost predicate Unversioned(w: World, request: Id) {
    forall i :: !Carried(w, i, request)
  }

  /** What a call that stands at its program counter may rely on. */
  ghost predicate CallInv(w: World, key: Key) {
    key in w.calls && key in w.requests &&
    match w.calls[key]
    case ListVersions(p) => OwnProject(w, key, p)
    case CreateVersion(p) => OwnProject(w, key, p) && Unversioned(w, w.requests[key].id)
    case CompleteRequest(p, v) => OwnVersion(w, key, p, v)
    case PushDelivery => true
    case _ => true
  }

  /** What the table of requests may rely on. */
  ghost predicate RequestInv(w: World, key: Key)
    requires key in w.requests
  {
    var r := w.requests[key];
    && r.id < w.nextId
    && (r.status.Succeeded? ==> r.project.Some? && r.version.Some?)
    && (r.project.Some? <==> r.version.Some?)
    && (r.project.Some? ==> OwnVersion(w, key, r.project.value, r.version.value))
  }

  predicate ProjectInv(w: World, slug: Slug)
    requires slug in w.projects
  {
    var p := w.projects[slug];
    p.request.Some? ==> exists key ::
      key in w.requests && w.requests[key].id == p.request.value && w.requests[key].payload.slug == slug
  }

  /** Versions carry only requests that own their project. */
  ghost predicate VersionInv(w: World, i: nat)
    requires i < |w.versions|
  {
    w.versions[i].request.Some? ==>
      exists key :: key in w.requests && w.requests[key].id == w.versions[i].request.value &&
        OwnProject(w, key, w.versions[i].project)
  }

  ghost predicate Inv(w: World) {
    && (forall k, l :: k in w.requests && l in w.requests && w.requests[k].id == w.requests[l].id ==> k == l)
    && (forall key :: key in w.requests ==> RequestInv(w, key))
    && (forall key :: key in w.calls ==> CallInv(w, key))
    && (forall slug :: slug in w.projects ==> ProjectInv(w, slug))
    && (forall i :: 0 <= i < |w.versions| ==> VersionInv(w, i))
    && (forall i, j, r :: Carried(w, i, r) && Carried(w, j, r) ==> i == j)
  }

  // ----- Nothing is taken back

  predicate Grows(w: World, w': World) {
    && (forall key :: key in w.requests ==> KeepsRequest(w, w', key))
    && (forall slug :: slug in w.projects ==> slug in w'.projects && w'.projects[slug] == w.projects[slug])
    && w.versions <= w'.versions
    && w.nextId <= w'.nextId
  }

  predicate KeepsRequest(w: World, w': World, key: Key)
    requires key in w.requests
  {
    key in w'.requests && w'.requests[key].id == w.requests[key].id &&
      w'.requests[key].payload == w.requests[key].payload
  }

  lemma StepGrows(w: World, s: Step)
    requires Enabled(w, s)
    ensures Grows(w, Next(w, s))
  {
  }

  lemma OwnKept(w: World, w': World, key: Key, p: Id)
    requires Grows(w, w') && key in w.requests && OwnProject(w, key, p)
    ensures key in w'.requests && OwnProject(w', key, p)
  {
    assert KeepsRequest(w, w', key);
  }

  lemma OwnVersionKept(w: World, w': World, key: Key, p: Id, v: Id)
    requires Grows(w, w') && key in w.requests && OwnVersion(w, key, p, v)
    ensures key in w'.requests && OwnVersion(w', key, p, v)
  {
    OwnKept(w, w', key, p);
    assert KeepsRequest(w, w', key);
    var i :| 0 <= i < |w.versions| && w.versions[i] == Version(v, p, Some(w.requests[key].id));
    assert w'.versions[i] == w.versions[i];
  }

  /** Whatever version carries a request belongs to the request's own project. */
  lemma CarriedByOwnProject(w: World, key: Key, p: Id)
    requires Inv(w) && key in w.requests && OwnProject(w, key, p)
    ensures forall i :: 0 <= i < |w.versions| && w.versions[i].request == Some(w.requests[key].id) ==>
      w.versions[i].project == p
  {
    var rid := w.requests[key].id;
    forall i | 0 <= i < |w.versions| && w.versions[i].request == Some(rid) ensures w.versions[i].project == p {
      assert VersionInv(w, i);
      var k :| k in w.requests && w.requests[k].id == rid && OwnProject(w, k, w.versions[i].project);
      assert k == key;
    }
  }

  /** When a call finds no version in its project, no version anywhere carries its request. */
  lemma NoneFound(w: World, key: Key, p: Id)
    requires Inv(w) && key in w.requests && OwnProject(w, key, p)
    requires FindVersion(w.versions, p, w.requests[key].id).None?
    ensures Unversioned(w, w.requests[key].id)
  {
    CarriedByOwnProject(w, key, p);
  }

  lemma UnversionedKept(w: World, w': World, rid: Id)
    requires Unversioned(w, rid) && w.versions <= w'.versions
    requires forall i :: |w.versions| <= i < |w'.versions| ==> w'.versions[i].request != Some(rid)
    ensures Unversioned(w', rid)
  {
    forall i: nat ensures !Carried(w', i, rid) {
      assert i < |w.versions| ==> !Carried(w, i, rid) && w'.versions[i] == w.versions[i];
    }
  }

  /** What a step does to one request: nothing, mark it failed, complete it, or reserve it. */
  lemma RequestEffect(w: World, s: Step, key: Key)
    requires Enabled(w, s) && key in Next(w, s).requests
    ensures
      var r' := Next(w, s).requests[key];
      if key !in w.requests then
        r'.id == w.nextId < Next(w, s).nextId && r'.status.Reserved? && r'.project.None? && r'.version.None?
      else
        var r := w.requests[key];
        || r' == r
        || r' == r.(status := Failed)
        || (key in w.calls && w.calls[key].CompleteRequest?
            && r' == r.(status := Succeeded, project := Some(w.calls[key].project),
              version := Some(w.calls[key].version)))
  {
  }

  lemma NextRequest(w: World, s: Step, key: Key)
    requires Inv(w) && Enabled(w, s) && key in Next(w, s).requests
    ensures RequestInv(Next(w, s), key)
  {
    var w' := Next(w, s);
    hide Inv, OwnVersion, Next, Enabled;
    StepGrows(w, s);
    RequestEffect(w, s, key);
    if key in w.requests {
      RequestOf(w, key);
      var r' := w'.requests[key];
      if r'.project.Some? {
        if key in w.calls {
          CallOf(w, key);
        }
        OwnVersionKept(w, w', key, r'.project.value, r'.version.value);
      }
    }
  }

  lemma RequestOf(w: World, key: Key)
    requires Inv(w) && key in w.requests
    ensures RequestInv(w, key)
  {
  }

  lemma CallOf(w: World, key: Key)
    requires Inv(w) && key in w.calls
    ensures CallInv(w, key)
  {
  }

  lemma NextRequests(w: World, s: Step)
    requires Inv(w) && Enabled(w, s)
    ensures
      var w' := Next(w, s);
      && (forall k, l :: k in w'.requests && l in w'.requests && w'.requests[k].id == w'.requests[l].id ==> k == l)
      && (forall key :: key in w'.requests ==> RequestInv(w', key))
  {
    var w' := Next(w, s);
    forall key | key in w'.requests ensures RequestInv(w', key) {
      NextRequest(w, s, key);
    }
    hide OwnVersion, CallInv, ProjectInv, VersionInv;
    StepGrows(w, s);
    forall k, l | k in w'.requests && l in w'.requests && w'.requests[k].id == w'.requests[l].id ensures k == l {
      assert k in w.requests ==> RequestInv(w, k) && KeepsRequest(w, w', k);
      assert l in w.requests ==> RequestInv(w, l) && KeepsRequest(w, w', l);
    }
  }

  lemma NextProjects(w: World, s: Step)
    requires Inv(w) && Enabled(w, s)
    ensures forall slug :: slug in Next(w, s).projects ==> ProjectInv(Next(w, s), slug)
  {
    var w' := Next(w, s);
    StepGrows(w, s);
    forall slug | slug in w'.projects ensures ProjectInv(w', slug) {
      if slug in w.projects {
        assert ProjectInv(w, slug);
        if w.projects[slug].request.Some? {
          var key :| key in w.requests && w.requests[key].id == w.projects[slug].request.value &&
            w.requests[key].payload.slug == slug;
          assert KeepsRequest(w, w', key);
        }
      } else if w'.projects[slug].request.Some? {
        assert s.Advance? && KeepsRequest(w, w', s.key);
      }
    }
  }

  lemma NextVersions(w: World, s: Step)
    requires Inv(w) && Enabled(w, s)
    ensures
      var w' := Next(w, s);
      && (forall i :: 0 <= i < |w'.versions| ==> VersionInv(w', i))
      && (forall i, j, r :: Carried(w', i, r) && Carried(w', j, r) ==> i == j)
  {
    var w' := Next(w, s);
    StepGrows(w, s);
    forall i | 0 <= i < |w'.versions| ensures VersionInv(w', i) {
      if i < |w.versions| {
        assert VersionInv(w, i) && w'.versions[i] == w.versions[i];
        if w.versions[i].request.Some? {
          var key :| key in w.requests && w.requests[key].id == w.versions[i].request.value &&
            OwnProject(w, key, w.versions[i].project);
          OwnKept(w, w', key, w.versions[i].project);
          assert KeepsRequest(w, w', key);
        }
      } else if w'.versions[i].request.Some? {
        assert s.Advance? && CallInv(w, s.key);
        OwnKept(w, w', s.key, w'.versions[i].project);
      }
    }
    assert s.Advance? ==> CallInv(w, s.key);
    forall i: nat, j: nat, r: Id | Carried(w', i, r) && Carried(w', j, r) ensures i == j {
      assert i < |w.versions| ==> Carried(w, i, r);
      assert j < |w.versions| ==> Carried(w, j, r);
    }
  }

  /** What a step does to one call: nothing, fail it, start it, or let it advance. */
  lemma CallEffect(w: World, s: Step, key: Key)
    requires Enabled(w, s) && key in Next(w, s).calls
    ensures
      var w' := Next(w, s);
      || (key in w.calls && w'.calls[key] == w.calls[key])
      || (key in w.calls && w'.calls[key] == FailRequest)
      || (key in w'.requests && w'.calls[key] == CreateProject)
      || s == Advance(key)
  {
  }

  lemma NextCalls(w: World, s: Step)
    requires Inv(w) && Enabled(w, s)
    ensures forall key :: key in Next(w, s).calls ==> CallInv(Next(w, s), key)
  {
    var w' := Next(w, s);
    forall key | key in w'.calls ensures CallInv(w', key) {
      NextCall(w, s, key);
    }
  }

  lemma NextCall(w: World, s: Step, key: Key)
    requires Inv(w) && Enabled(w, s) && key in Next(w, s).calls
    ensures CallInv(Next(w, s), key)
  {
    CallEffect(w, s, key);
    StepGrows(w, s);
    if s == Advance(key) {
      AdvancedCall(w, key);
    } else if key in w.calls && Next(w, s).calls[key] == w.calls[key] {
      CallKept(w, s, key);
    } else {
      hide Inv, Next, Enabled;
      if key in w.calls {
        CallOf(w, key);
        assert KeepsRequest(w, Next(w, s), key);
      }
    }
  }

  lemma AdvancedCall(w: World, key: Key)
    requires Inv(w) && Enabled(w, Advance(key)) && key in Advanced(w, key).calls
    ensures CallInv(Advanced(w, key), key)
  {
    var w' := Advanced(w, key);
    StepGrows(w, Advance(key));
    CallOf(w, key);
    hide Inv;
    match w.calls[key] {
      case ListVersions(p) =>
        OwnKept(w, w', key, p);
        if w'.calls[key].CreateVersion? {
          NoneFound(w, key, p);
          UnversionedKept(w, w', w.requests[key].id);
        }
      case CreateVersion(p) =>
        OwnKept(w, w', key, p);
        assert w'.versions[|w.versions|] == Version(w.nextId, p, Some(w.requests[key].id));
      case _ =>
    }
  }

  /** A call that does not move keeps what it relies on. */
  lemma CallKept(w: World, s: Step, key: Key)
    requires Inv(w) && Enabled(w, s)
    requires key in w.calls && key in Next(w, s).calls && Next(w, s).calls[key] == w.calls[key]
    ensures CallInv(Next(w, s), key)
  {
    var w' := Next(w, s);
    StepGrows(w, s);
    assert CallInv(w, key) && KeepsRequest(w, w', key);
    match w.calls[key] {
      case ListVersions(p) => OwnKept(w, w', key, p);
      case CreateVersion(p) =>
        OwnKept(w, w', key, p);
        forall i | |w.versions| <= i < |w'.versions| ensures w'.versions[i].request != Some(w.requests[key].id) {
          if s.Advance? {
            assert CallInv(w, s.key);
          }
        }
        UnversionedKept(w, w', w.requests[key].id);
      case CompleteRequest(p, v) => OwnVersionKept(w, w', key, p, v);
      case _ =>
    }
  }

  lemma NextInv(w: World, s: Step)
    requires Inv(w) && Enabled(w, s)
    ensures Inv(Next(w, s))
  {
    hide Next, Enabled, RequestInv, ProjectInv, VersionInv, CallInv;
    NextRequests(w, s);
    NextProjects(w, s);
    NextVersions(w, s);
    NextCalls(w, s);
  }

  // ----- Runs

  predicate Run(worlds: seq<World>, steps: seq<Step>) {
    && |worlds| == |steps| + 1
    && worlds[0] == START
    && forall i :: 0 <= i < |steps| ==> Enabled(worlds[i], steps[i]) && worlds[i + 1] == Next(worlds[i], steps[i])
  }

  lemma {:induction false} RunInv(worlds: seq<World>, steps: seq<Step>, i: nat)
    requires Run(worlds, steps) && i < |worlds|
    ensures Inv(worlds[i])
  {
    hide Next, Enabled;
    if i > 0 {
      RunInv(worlds, steps, i - 1);
      assert worlds[i - 1 + 1] == Next(worlds[i - 1], steps[i - 1]);
      NextInv(worlds[i - 1], steps[i - 1]);
    }
  }

  /**
   * Over every run, whatever stops or raises where: at most one project and at most one version carry a request, and
   * both belong together.
   */
  lemma OneProjectOneVersion(worlds: seq<World>, steps: seq<Step>, n: nat, request: Id)
    requires Run(worlds, steps) && n < |worlds|
    ensures
      var w := worlds[n];
      && (forall s, t | s in w.projects && t in w.projects ::
            w.projects[s].request == w.projects[t].request == Some(request) ==> s == t)
      && (forall i, j :: 0 <= i < j < |w.versions| ==>
            w.versions[i].request != Some(request) || w.versions[j].request != Some(request))
      && (forall i :: 0 <= i < |w.versions| && w.versions[i].request == Some(request) ==>
            exists s :: s in w.projects && w.projects[s] == Project(w.versions[i].project, Some(request)))
  {
    RunInv(worlds, steps, n);
    var w := worlds[n];
    forall s, t | s in w.projects && t in w.projects && w.projects[s].request == w.projects[t].request == Some(request)
      ensures s == t
    {
      assert ProjectInv(w, s) && ProjectInv(w, t);
    }
    forall i | 0 <= i < |w.versions| && w.versions[i].request == Some(request)
      ensures exists s :: s in w.projects && w.projects[s] == Project(w.versions[i].project, Some(request))
    {
      assert VersionInv(w, i);
    }
    forall i, j | 0 <= i < j < |w.versions|
      ensures w.versions[i].request != Some(request) || w.versions[j].request != Some(request)
    {
      assert !Carried(w, i, request) || !Carried(w, j, request);
    }
  }

  lemma RecordedIdsKept(w: World, s: Step, key: Key)
    requires Inv(w) && Enabled(w, s) && key in w.requests && w.requests[key].project.Some?
    ensures key in Next(w, s).requests
    ensures Next(w, s).requests[key].project == w.requests[key].project
    ensures Next(w, s).requests[key].version == w.requests[key].version
  {
    var r := w.requests[key];
    assert RequestInv(w, key);
    if s.Advance? && s.key == key && w.calls[key].CompleteRequest? {
      assert CallInv(w, key);
      var i :| 0 <= i < |w.versions| && w.versions[i] == Version(r.version.value, r.project.value, Some(r.id));
      var j :| 0 <= j < |w.versions| &&
        w.versions[j] == Version(w.calls[key].version, w.calls[key].project, Some(r.id));
      assert Carried(w, i, r.id) && Carried(w, j, r.id);
    }
  }

  /** The identifiers recorded on a request are never replaced, not even by a later failure or retry. */
  lemma {:induction false} RecordedIdsStay(worlds: seq<World>, steps: seq<Step>, i: nat, j: nat, key: Key)
    requires Run(worlds, steps) && i <= j < |worlds|
    requires key in worlds[i].requests && worlds[i].requests[key].project.Some?
    ensures key in worlds[j].requests
    ensures worlds[j].requests[key].project == worlds[i].requests[key].project
    ensures worlds[j].requests[key].version == worlds[i].requests[key].version
    decreases j - i
  {
    hide Inv, Next, Enabled;
    if i < j {
      RecordedIdsStay(worlds, steps, i, j - 1, key);
      RunInv(worlds, steps, j - 1);
      assert worlds[j - 1 + 1] == Next(worlds[j - 1], steps[j - 1]);
      RecordedIdsKept(worlds[j - 1], steps[j - 1], key);
    }
  }

  /** A request that has succeeded and whose call is over. */
  predicate Settled(w: World, key: Key) {
    key in w.requests && w.requests[key].status.Succeeded? && key !in w.calls
  }

  /** A settled request is replayed for ever: its row never changes and a new call writes nothing. */
  lemma {:induction false} SettledForGood(worlds: seq<World>, steps: seq<Step>, i: nat, j: nat, key: Key,
      payload: Payload)
    requires Run(worlds, steps) && i <= j < |worlds| && Settled(worlds[i], key)
    ensures Settled(worlds[j], key) && worlds[j].requests[key] == worlds[i].requests[key]
    ensures Next(worlds[j], Begin(key, payload)) == worlds[j]
    ensures worlds[j].requests[key].project.Some? && worlds[j].requests[key].version.Some?
    decreases j - i
  {
    hide Inv, Next, Enabled;
    RunInv(worlds, steps, j);
    if i < j {
      SettledForGood(worlds, steps, i, j - 1, key, payload);
      assert worlds[j - 1 + 1] == Next(worlds[j - 1], steps[j - 1]);
      SettledStep(worlds[j - 1], steps[j - 1], key);
    }
    Replayed(worlds[j], key, payload);
  }

  lemma SettledStep(w: World, s: Step, key: Key)
    requires Enabled(w, s) && Settled(w, key)
    ensures Settled(Next(w, s), key) && Next(w, s).requests[key] == w.requests[key]
  {
  }

  lemma Replayed(w: World, key: Key, payload: Payload)
    requires Inv(w) && Settled(w, key)
    ensures Enabled(w, Begin(key, payload)) && Next(w, Begin(key, payload)) == w
    ensures w.requests[key].project.Some? && w.requests[key].version.Some?
  {
    hide Inv, OwnVersion;
    RequestOf(w, key);
  }

  /**
   * A key stays bound to the payload it was first used with: whatever happens in between, a call with another payload
   * conflicts at every later point of the run, and changes nothing.
   */
  lemma {:induction false} ConflictIsForGood(worlds: seq<World>, steps: seq<Step>, i: nat, j: nat, key: Key,
      payload: Payload)
    requires Run(worlds, steps) && i <= j < |worlds|
    requires key in worlds[i].requests && worlds[i].requests[key].payload != payload
    ensures key in worlds[j].requests
    ensures worlds[j].requests[key].payload == worlds[i].requests[key].payload
    ensures worlds[j].requests[key].id == worlds[i].requests[key].id
    ensures key !in worlds[j].calls ==> Next(worlds[j], Begin(key, payload)) == worlds[j]
    decreases j - i
  {
    hide Inv;
    if i < j {
      ConflictIsForGood(worlds, steps, i, j - 1, key, payload);
      var w, s := worlds[j - 1], steps[j - 1];
      assert worlds[j - 1 + 1] == Next(w, s);
      StepGrows(w, s);
      RequestEffect(w, s, key);
    }
  }

  // ----- A call that is not interrupted

  /** The world once the call of `key` has run to its end. */
  function Finished(w: World, key: Key): World
    requires key in w.calls && key in w.requests
    decreases w.calls[key].Rank()
  {
    var w' := Advanced(w, key);
    if key in w'.calls then Finished(w', key) else w'
  }

  /** Nobody else's project has the slug. */
  predicate SlugIsOurs(w: World, key: Key)
    requires key in w.requests
  {
    var r := w.requests[key];
    r.payload.slug in w.projects ==> w.projects[r.payload.slug].request == Some(r.id)
  }

  /** One await of an uninterrupted call: who owns the slug decides whether it ends well. */
  lemma AdvanceTowardsEnd(w: World, key: Key)
    requires Inv(w) && key in w.calls && key in w.requests && !w.requests[key].status.Succeeded?
    requires w.calls[key] != FailRequest && w.calls[key] != PushDelivery
    ensures
      var w' := Advanced(w, key);
      && key in w'.calls && key in w'.requests
      && (SlugIsOurs(w', key) <==> SlugIsOurs(w, key))
      && (w'.calls[key] == FailRequest ==> !SlugIsOurs(w, key))
      && (w'.calls[key] == PushDelivery ==> SlugIsOurs(w, key))
      && (w'.requests[key].status.Succeeded? <==> w'.calls[key] == PushDelivery)
  {
    assert CallInv(w, key);
  }

  lemma LastAwait(w: World, key: Key)
    requires key in w.calls && key in w.requests && (w.calls[key] == FailRequest || w.calls[key] == PushDelivery)
    ensures Finished(w, key) == Advanced(w, key)
  {
  }

  /** What one await of a call may change: its own request, the project of its slug, and one version. */
  predicate Touches(w: World, w': World, key: Key, versions: nat)
    requires key in w.requests
  {
    && Grows(w, w')
    && (forall other :: other in w'.requests && other != key ==>
          other in w.requests && w'.requests[other] == w.requests[other])
    && (forall slug :: slug in w'.projects ==> slug in w.projects || slug == w.requests[key].payload.slug)
    && |w'.versions| <= |w.versions| + versions
  }

  function VersionsLeft(pc: Pc): nat {
    match pc
    case CompleteRequest(_, _) => 0
    case PushDelivery => 0
    case FailRequest => 0
    case _ => 1
  }

  lemma AdvancedTouches(w: World, key: Key)
    requires key in w.calls && key in w.requests
    ensures
      var w' := Advanced(w, key);
      && Touches(w, w', key, VersionsLeft(w.calls[key])) && Grows(w, w')
      && (key in w'.calls ==>
            |w'.versions| + VersionsLeft(w'.calls[key]) <= |w.versions| + VersionsLeft(w.calls[key]))
  {
    StepGrows(w, Advance(key));
  }

  /** An uninterrupted call touches nothing else, and keeps what every step keeps. */
  lemma {:induction false} FinishedTouches(w: World, key: Key)
    requires Inv(w) && key in w.calls && key in w.requests
    ensures Inv(Finished(w, key)) && Touches(w, Finished(w, key), key, VersionsLeft(w.calls[key]))
    decreases w.calls[key].Rank()
  {
    hide Inv, Advanced, Next, Enabled, Touches, VersionsLeft;
    var w' := Advanced(w, key);
    AdvancedRank(w, key);
    NextInv(w, Advance(key));
    AdvancedTouches(w, key);
    if key in w'.calls {
      FinishedTouches(w', key);
      TouchesAgain(w, w', Finished(w', key), key, VersionsLeft(w.calls[key]), VersionsLeft(w'.calls[key]));
    }
  }

  lemma TouchesAgain(w: World, w': World, end: World, key: Key, n: nat, m: nat)
    requires key in w.requests && key in w'.requests && Grows(w, w')
    requires Touches(w, w', key, n) && Touches(w', end, key, m) && |w'.versions| + m <= |w.versions| + n
    ensures Touches(w, end, key, n)
  {
  }

  lemma AdvancedRank(w: World, key: Key)
    requires key in w.calls && key in w.requests
    ensures
      var w' := Advanced(w, key);
      && Enabled(w, Advance(key)) && Next(w, Advance(key)) == w'
      && (key in w'.calls ==> key in w'.requests && w'.calls[key].Rank() < w.calls[key].Rank())
  {
  }

  /** What a request that has succeeded points to. */
  lemma SucceededOwns(w: World, key: Key)
    requires Inv(w) && key in w.requests && w.requests[key].status.Succeeded?
    ensures
      var r := w.requests[key];
      && r.project.Some? && r.version.Some?
      && r.payload.slug in w.projects && w.projects[r.payload.slug] == Project(r.project.value, Some(r.id))
      && Version(r.version.value, r.project.value, Some(r.id)) in w.versions
  {
    assert RequestInv(w, key);
  }

  /** An uninterrupted call ends, and succeeds exactly when the slug is free or already the request's own. */
  lemma {:induction false} FinishedSucceeds(w: World, key: Key)
    requires Inv(w) && key in w.calls && key in w.requests && !w.requests[key].status.Succeeded?
    requires w.calls[key] != FailRequest && w.calls[key] != PushDelivery
    ensures key in Finished(w, key).requests
    ensures Settled(Finished(w, key), key) <==> SlugIsOurs(w, key)
    ensures !SlugIsOurs(w, key) ==> Finished(w, key).requests[key].status.Failed?
    decreases w.calls[key].Rank()
  {
    hide Inv;
    var w' := Advanced(w, key);
    NextInv(w, Advance(key));
    AdvanceTowardsEnd(w, key);
    assert Finished(w, key) == Finished(w', key);
    if w'.calls[key] == FailRequest || w'.calls[key] == PushDelivery {
      LastAwait(w', key);
    } else {
      FinishedSucceeds(w', key);
    }
  }
}
