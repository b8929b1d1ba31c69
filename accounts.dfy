/** The account table of services/AccountsService.kt: account ids mapped
    to display names. */
module Accounts {
  import opened Wrappers
  import opened Entities

  class AccountsService {
    var accounts: map<Uuid, string>

    constructor()
      ensures accounts == map[]
    {
      accounts := map[];
    }

    /** `get`: the account, or null for an unknown id. */
    method Get(id: Uuid) returns (r: Option<ApiAccount>)
      ensures r.None? <==> id !in accounts
      ensures r.Some? ==> r.value.id == id && r.value.name == accounts[id]
    {
      if id in accounts {
        r := Some(ApiAccount(id, accounts[id]));
      } else {
        r := None;
      }
    }

    /** `upsert`: renames the account when `id` names one; otherwise creates
        an account under `id`, or under `freshId` (a newly generated UUID)
        when no id is given. Either way the result carries the new name and
        no other account changes. */
    method Upsert(id: Option<Uuid>, name: string, freshId: Uuid) returns (a: ApiAccount)
      requires freshId !in accounts
      modifies this
      ensures a.id == (if id.Some? then id.value else freshId)
      ensures a.name == name
      ensures accounts == old(accounts)[a.id := name]
      ensures id.Some? && id.value in old(accounts) ==> accounts.Keys == old(accounts).Keys
      ensures !(id.Some? && id.value in old(accounts)) ==> a.id !in old(accounts) && |accounts| == |old(accounts)| + 1
    {
      if id.Some? && id.value in accounts {
        accounts := accounts[id.value := name];
        return ApiAccount(id.value, name);
      }
      var newId := if id.Some? then id.value else freshId;
      accounts := accounts[newId := name];
      a := ApiAccount(newId, name);
    }
  }

  /** `upsert` followed by `get` on the returned id finds the new name,
      while every other account reads as before. */
  method UpsertThenGet(service: AccountsService, id: Option<Uuid>, name: string, freshId: Uuid, other: Uuid)
      returns (got: Option<ApiAccount>, otherBefore: Option<ApiAccount>, otherAfter: Option<ApiAccount>)
    requires freshId !in service.accounts
    modifies service
    ensures got == Some(ApiAccount(if id.Some? then id.value else freshId, name))
    ensures other != (if id.Some? then id.value else freshId) ==> otherAfter == otherBefore
  {
    otherBefore := service.Get(other);
    var a := service.Upsert(id, name, freshId);
    got := service.Get(a.id);
    otherAfter := service.Get(other);
  }
}
