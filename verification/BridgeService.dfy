// The repositories behind a bridge request and the service call that drives them (`bridge_service.py`,
// `bridge_repository.py`, `repositories.py`), one method a transaction.
module BridgeService {
  import opened Wrappers
  import opened BridgeRequests

  datatype BridgeError = IdempotencyConflict | SlugBelongsToAnotherRequest

  datatype Created = Created(project: Id, version: Id, replay: bool)

  class BridgeStore {
    var requests: map<Key, Request>
    var projects: map<Slug, Project>
    var versions: seq<Version>
    var nextId: Id

    ghost function Contents(calls: map<Key, Pc>): World
      reads this
    {
      World(requests, projects, versions, nextId, calls)
    }

    constructor ()
      ensures Contents(map[]) == START
    {
      requests, projects, versions, nextId := map[], map[], [], 0;
    }

    method ReserveRequest(key: Key, payload: Payload, ghost calls: map<Key, Pc>)
      returns (result: Result<(Request, bool), BridgeError>)
      requires key !in calls
      modifies this
      ensures
        var w := Next(old(Contents(calls)), Begin(key, payload));
        && Contents(w.calls) == w
        && (key in w.calls <==> result.Success? && !result.value.0.status.Succeeded?)
        && (key in w.calls ==> w.calls == calls[key := CreateProject])
      ensures result.Success? ==>
        key in requests && result.value.0 == requests[key] && (result.value.1 <==> key in old(requests))
      ensures result.Failure? <==> key in old(requests) && old(requests)[key].payload != payload
      ensures result.Failure? ==> result.error == IdempotencyConflict
      ensures projects == old(projects) && versions == old(versions)
      ensures
        if key in old(requests) then requests == old(requests) && nextId == old(nextId)
        else
          && requests == old(requests)[key := Request(old(nextId), payload, Reserved, None, None)]
          && nextId == old(nextId) + 1
    {
      if key in requests {
        if requests[key].payload != payload {
          return Failure(IdempotencyConflict);
        }
        return Success((requests[key], true));
      }
      requests := requests[key := Request(nextId, payload, Reserved, None, None)];
      nextId := nextId + 1;
      result := Success((requests[key], false));
    }

    /** The unique constraint on the slug decides. */
    method CreateProjectRow(slug: Slug, request: Id) returns (project: Option<Project>)
      modifies this`projects, this`nextId
      ensures slug in old(projects) ==> project.None? && projects == old(projects) && nextId == old(nextId)
      ensures slug !in old(projects) ==>
        && project == Some(Project(old(nextId), Some(request)))
        && projects == old(projects)[slug := project.value] && nextId == old(nextId) + 1
    {
      if slug in projects {
        return None;
      }
      project := Some(Project(nextId, Some(request)));
      projects := projects[slug := project.value];
      nextId := nextId + 1;
    }

    method EnsureProjectRow(slug: Slug, request: Id) returns (project: Project)
      modifies this`projects, this`nextId
      ensures slug in old(projects) ==>
        project == old(projects)[slug] && projects == old(projects) && nextId == old(nextId)
      ensures slug !in old(projects) ==>
        && project == Project(old(nextId), Some(request))
        && projects == old(projects)[slug := project] && nextId == old(nextId) + 1
    {
      if slug in projects {
        return projects[slug];
      }
      var made := CreateProjectRow(slug, request);
      project := made.value;
    }

    method FindVersionRow(project: Id, request: Id) returns (v: Option<Id>)
      ensures v == FindVersion(versions, project, request)
    {
      var i := 0;
      while i < |versions|
        invariant i <= |versions|
        invariant FindVersion(versions, project, request) == FindVersion(versions[i..], project, request)
      {
        if versions[i].project == project && versions[i].request == Some(request) {
          return Some(versions[i].id);
        }
        i := i + 1;
      }
      v := None;
    }

    method CreateVersionRow(project: Id, request: Id) returns (v: Id)
      modifies this`versions, this`nextId
      ensures v == old(nextId) && nextId == v + 1 && versions == old(versions) + [Version(v, project, Some(request))]
    {
      v := nextId;
      versions := versions + [Version(v, project, Some(request))];
      nextId := nextId + 1;
    }

    method CompleteRequestRow(key: Key, project: Id, version: Id)
      requires key in requests
      modifies this`requests
      ensures requests == if old(requests)[key].status.Succeeded? then old(requests)
        else old(requests)[key := old(requests)[key].(status := Succeeded, project := Some(project),
          version := Some(version))]
    {
      if !requests[key].status.Succeeded? {
        requests := requests[key := requests[key].(status := Succeeded, project := Some(project),
          version := Some(version))];
      }
    }

    method FailRequestRow(key: Key)
      requires key in requests
      modifies this`requests
      ensures requests == old(requests)[key := old(requests)[key].(status := Failed)]
    {
      requests := requests[key := requests[key].(status := Failed)];
    }
  }

  /** The call of `key` stands where the store is. */
  predicate StandsAt(w: World, contents: World, key: Key) {
    key in w.calls && key in w.requests && contents == w
  }

  /** Creates the project, or finds the one that has the slug; `None` when that belongs to another request. */
  method ObtainProject(store: BridgeStore, key: Key, ghost w: World) returns (project: Option<Id>, ghost w': World)
    requires StandsAt(w, store.Contents(w.calls), key) && w.calls[key] == CreateProject
    modifies store
    ensures StandsAt(w', store.Contents(w'.calls), key) && Finished(w', key) == Finished(w, key)
    ensures w'.calls[key] == if project.Some? then ListVersions(project.value) else FailRequest
    ensures w'.requests == w.requests
  {
    var request := store.requests[key];
    var made := store.CreateProjectRow(request.payload.slug, request.id);
    w' := Advanced(w, key);
    if made.Some? {
      return Some(made.value.id), w';
    }
    var ensured := store.EnsureProjectRow(request.payload.slug, request.id);
    w' := Advanced(w', key);
    project := if ensured.request == Some(request.id) then Some(ensured.id) else None;
  }

  /** Finds the version that carries the request, or creates it. */
  method ObtainVersion(store: BridgeStore, key: Key, project: Id, ghost w: World) returns (version: Id, ghost w': World)
    requires StandsAt(w, store.Contents(w.calls), key) && w.calls[key] == ListVersions(project)
    modifies store
    ensures StandsAt(w', store.Contents(w'.calls), key) && Finished(w', key) == Finished(w, key)
    ensures w'.calls[key] == CompleteRequest(project, version)
    ensures w'.requests == w.requests
  {
    var request := store.requests[key];
    var found := store.FindVersionRow(project, request.id);
    w' := Advanced(w, key);
    if found.Some? {
      return found.value, w';
    }
    version := store.CreateVersionRow(project, request.id);
    w' := Advanced(w', key);
  }

  /**
   * The service call, when nothing stops it and only the slug can stand in its way: it is the run of the steps above,
   * from the reservation to the end.
   */
  method CreateDraftProject(store: BridgeStore, key: Key, payload: Payload, ghost calls: map<Key, Pc>)
    returns (result: Result<Created, BridgeError>)
    requires key !in calls && Inv(store.Contents(calls))
    modifies store
    ensures
      var begun := Next(old(store.Contents(calls)), Begin(key, payload));
      if key in begun.calls then store.Contents(Finished(begun, key).calls) == Finished(begun, key)
      else store.Contents(calls) == begun
    ensures result.Success? <==>
      && (key in old(store.requests) ==> old(store.requests)[key].payload == payload)
      && Settled(store.Contents(calls), key)
    ensures result.Success? <==>
      var begun := Next(old(store.Contents(calls)), Begin(key, payload));
      && (key in old(store.requests) ==> old(store.requests)[key].payload == payload)
      && (key in begun.calls ==> SlugIsOurs(begun, key))
    ensures result.Success? ==>
      && store.requests[key].project == Some(result.value.project)
      && store.requests[key].version == Some(result.value.version)
      && (result.value.replay <==> key in old(store.requests))
    ensures result.Failure? ==>
      (result.error.IdempotencyConflict? <==> key in old(store.requests) && old(store.requests)[key].payload != payload)
    ensures result.Failure? && result.error.IdempotencyConflict? ==> store.Contents(calls) == old(store.Contents(calls))
  {
    ghost var w := Next(store.Contents(calls), Begin(key, payload));
    NextInv(store.Contents(calls), Begin(key, payload));
    var reserved := store.ReserveRequest(key, payload, calls);
    if reserved.Failure? {
      return Failure(reserved.error);
    }
    var request, replay := reserved.value.0, reserved.value.1;
    if request.status.Succeeded? {
      RequestOf(w, key);
      return Success(Created(request.project.value, request.version.value, true));
    }
    FinishedCalls(w, key);
    result := ObtainDraft(store, key, replay, w);
  }

  /** The call after its reservation: it succeeds exactly when nobody else's project has the slug. */
  method ObtainDraft(store: BridgeStore, key: Key, replay: bool, ghost w: World)
    returns (result: Result<Created, BridgeError>)
    requires StandsAt(w, store.Contents(w.calls), key) && w.calls[key] == CreateProject
    requires Inv(w) && !w.requests[key].status.Succeeded?
    modifies store
    ensures store.Contents(Finished(w, key).calls) == Finished(w, key)
    ensures result.Success? <==> SlugIsOurs(w, key)
    ensures result.Success? <==> Settled(Finished(w, key), key)
    ensures result.Success? ==>
      && key in store.requests && store.requests[key].project.Some? && store.requests[key].version.Some?
      && result.value == Created(store.requests[key].project.value, store.requests[key].version.value, replay)
    ensures result.Failure? ==> result.error == SlugBelongsToAnotherRequest
  {
    hide Inv, Advanced, SlugIsOurs;
    FinishedSucceeds(w, key);
    ghost var g: World;
    var project;
    project, g := ObtainProject(store, key, w);
    if project.None? {
      store.FailRequestRow(key);
      LastAwait(g, key);
      FailedAwait(g, key);
      return Failure(SlugBelongsToAnotherRequest);
    }
    var version;
    version, g := ObtainVersion(store, key, project.value, g);
    store.CompleteRequestRow(key, project.value, version);
    CompletedAwait(g, key, project.value, version);
    result := Success(Created(project.value, version, replay));
  }

  /** A call that runs to its end leaves the other calls as they are. */
  lemma {:induction false} FinishedCalls(w: World, key: Key)
    requires key in w.calls && key in w.requests
    ensures Finished(w, key).calls == w.calls - {key}
    decreases w.calls[key].Rank()
  {
    hide Advanced;
    var w' := Advanced(w, key);
    AdvancedCalls(w, key);
    if key in w'.calls {
      FinishedCalls(w', key);
    }
  }

  lemma AdvancedCalls(w: World, key: Key)
    requires key in w.calls && key in w.requests
    ensures
      var w' := Advanced(w, key);
      && w'.calls - {key} == w.calls - {key}
      && (key in w'.calls ==> key in w'.requests && w'.calls[key].Rank() < w.calls[key].Rank())
  {
  }

  lemma FailedAwait(w: World, key: Key)
    requires key in w.calls && key in w.requests && w.calls[key] == FailRequest
    ensures Advanced(w, key) ==
      w.(requests := w.requests[key := w.requests[key].(status := Failed)], calls := w.calls - {key})
  {
  }

  lemma CompletedAwait(w: World, key: Key, project: Id, version: Id)
    requires key in w.calls && key in w.requests && w.calls[key] == CompleteRequest(project, version)
    requires !w.requests[key].status.Succeeded?
    ensures Finished(w, key) ==
      w.(requests := w.requests[key :=
           w.requests[key].(status := Succeeded, project := Some(project), version := Some(version))],
         calls := w.calls - {key})
  {
    LastAwait(Advanced(w, key), key);
  }
}
