/** Disposable deployer credentials, held in worker memory only (packages/deployment/src/credentials.ts). */
module Credentials {
  import opened Options

  type RunId = string

  class Handle {
    var key: Option<string>
    var destroyed: bool

    constructor (privateKey: string)
      ensures key == Some(privateKey) && !destroyed
    {
      key, destroyed := Some(privateKey), false;
    }

    method PeekPrivateKey() returns (r: Result<string, string>)
      ensures r.Success? <==> !destroyed && key.Some?
      ensures r.Success? ==> key == Some(r.value)
    {
      if destroyed || key.None? {
        return Failure("disposable credential has been destroyed");
      }
      return Success(key.value);
    }

    method Destroy()
      modifies this
      ensures destroyed && key == None
    {
      destroyed, key := true, None;
    }
  }

  class LiveCredentials {
    var live: map<RunId, Handle>

    /** Every live handle belongs to one run and still has its key. */
    ghost predicate Valid()
      reads this, live.Values
    {
      && (forall id :: id in live ==> !live[id].destroyed && live[id].key.Some?)
      && (forall id, id' :: id in live && id' in live && id != id' ==> live[id] != live[id'])
    }

    constructor ()
      ensures Valid() && live == map[]
    {
      live := map[];
    }

    method GetCredential(id: RunId) returns (handle: Option<Handle>)
      requires Valid()
      ensures handle == if id in live then Some(live[id]) else None
      ensures handle.Some? ==> handle.value.key.Some?
    {
      handle := if id in live then Some(live[id]) else None;
    }

    /** The run's key is gone from the handle itself, not only from the map. */
    method DestroyCredential(id: RunId)
      requires Valid()
      modifies this, if id in live then {live[id]} else {}
      ensures Valid() && live == old(live) - {id}
      ensures id in old(live) ==> old(live[id]).destroyed && old(live[id]).key == None
      ensures forall other :: other in live ==> live[other].key == old(live[other].key)
    {
      if id in live {
        live[id].Destroy();
      }
      live := live - {id};
    }

    /** Issuing a new credential for a run destroys the one it replaces. */
    method StoreCredential(id: RunId, handle: Handle)
      requires Valid() && handle !in live.Values && !handle.destroyed && handle.key.Some?
      modifies this, if id in live then {live[id]} else {}
      ensures Valid() && live == old(live)[id := handle]
      ensures id in old(live) ==> old(live[id]).destroyed && old(live[id]).key == None
      ensures handle.key == old(handle.key)
    {
      DestroyCredential(id);
      live := live[id := handle];
    }
  }
}
