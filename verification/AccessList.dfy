/** Who may open which sheet: a map with string keys, against the relation it stands for. */
module AccessList {
  import opened Wrappers
  import opened SheetKeys

  datatype Account = Account(fullName: string, employmentStatus: string)

  datatype Grant = Grant(sheetId: nat, userId: nat)

  datatype Listed = Listed(userId: nat, permission: string, fullName: string)

  ghost predicate Encodes(access: map<string, string>, grants: map<Grant, string>) {
    && (forall g :: g in grants ==> AccessKey(g.sheetId, g.userId) in access)
    && (forall g :: g in grants ==> access[AccessKey(g.sheetId, g.userId)] == grants[g])
    && (forall k :: k in access ==> IsKeyOf(k, grants))
  }

  ghost predicate IsKeyOf(key: string, grants: map<Grant, string>) {
    exists g :: g in grants && key == AccessKey(g.sheetId, g.userId)
  }

  lemma KeyOf(g: Grant, g': Grant)
    ensures AccessKey(g.sheetId, g.userId) == AccessKey(g'.sheetId, g'.userId) <==> g == g'
  {
    AccessKeyInjective(g.sheetId, g.userId, g'.sheetId, g'.userId);
  }

  lemma EncodesSet(access: map<string, string>, grants: map<Grant, string>, g: Grant, permission: string)
    requires Encodes(access, grants)
    ensures Encodes(access[AccessKey(g.sheetId, g.userId) := permission], grants[g := permission])
  {
    hide IsKeyOf, AccessKey;
    forall h | h in grants ensures AccessKey(h.sheetId, h.userId) == AccessKey(g.sheetId, g.userId) <==> h == g {
      KeyOf(h, g);
    }
    var access' := access[AccessKey(g.sheetId, g.userId) := permission];
    forall k | k in access' ensures IsKeyOf(k, grants[g := permission]) {
      KeysGrow(k, grants, g, permission);
    }
  }

  lemma KeysGrow(k: string, grants: map<Grant, string>, g: Grant, permission: string)
    requires IsKeyOf(k, grants) || k == AccessKey(g.sheetId, g.userId)
    ensures IsKeyOf(k, grants[g := permission])
  {
    if IsKeyOf(k, grants) {
      var h :| h in grants && k == AccessKey(h.sheetId, h.userId);
      assert h in grants[g := permission];
    } else {
      assert g in grants[g := permission];
    }
  }

  lemma EncodesDelete(access: map<string, string>, grants: map<Grant, string>, g: Grant)
    requires Encodes(access, grants)
    ensures Encodes(access - {AccessKey(g.sheetId, g.userId)}, grants - {g})
    ensures AccessKey(g.sheetId, g.userId) in access <==> g in grants
  {
    forall h | h in grants ensures AccessKey(h.sheetId, h.userId) == AccessKey(g.sheetId, g.userId) <==> h == g {
      KeyOf(h, g);
    }
    forall k | k in access && k != AccessKey(g.sheetId, g.userId) ensures IsKeyOf(k, grants - {g}) {
      var h :| h in grants && k == AccessKey(h.sheetId, h.userId);
      assert h in grants - {g};
    }
    if AccessKey(g.sheetId, g.userId) in access {
      var h :| h in grants && AccessKey(g.sheetId, g.userId) == AccessKey(h.sheetId, h.userId);
      KeyOf(g, h);
    }
  }

  function ScanKeys(access: map<string, string>, sheetId: nat): set<string> {
    set k | k in access && StartsWith(k, ScanPrefix(sheetId))
  }

  function GrantsOf(grants: map<Grant, string>, sheetId: nat): set<Grant> {
    set g | g in grants && g.sheetId == sheetId
  }

  function KeysOf(grants: set<Grant>): set<string> {
    set g | g in grants :: AccessKey(g.sheetId, g.userId)
  }

  /** The prefix scan selects exactly the grants of that sheet. */
  lemma ScanIsSelection(access: map<string, string>, grants: map<Grant, string>, sheetId: nat)
    requires Encodes(access, grants)
    ensures ScanKeys(access, sheetId) == KeysOf(GrantsOf(grants, sheetId))
  {
    forall k | k in ScanKeys(access, sheetId) ensures k in KeysOf(GrantsOf(grants, sheetId)) {
      var g :| g in grants && k == AccessKey(g.sheetId, g.userId);
      AccessScan(sheetId, g.sheetId, g.userId);
      assert g in GrantsOf(grants, sheetId);
    }
    forall g | g in GrantsOf(grants, sheetId) ensures AccessKey(g.sheetId, g.userId) in ScanKeys(access, sheetId) {
      AccessScan(sheetId, g.sheetId, g.userId);
    }
  }

  /** Distinct grants have distinct keys, so counting keys counts grants. */
  lemma {:induction false} KeysCount(grants: set<Grant>)
    ensures |KeysOf(grants)| == |grants|
  {
    if grants != {} {
      var g :| g in grants;
      KeysCount(grants - {g});
      forall h | h in grants - {g} ensures AccessKey(h.sheetId, h.userId) != AccessKey(g.sheetId, g.userId) {
        KeyOf(h, g);
      }
      assert KeysOf(grants) == KeysOf(grants - {g}) + {AccessKey(g.sheetId, g.userId)};
    }
  }

  /** The ids `grantAccess` returns: the accounts that may receive, in the order asked for. */
  function Receivers(users: map<nat, Account>, userIds: seq<nat>): seq<nat> {
    if userIds == [] then []
    else
      var n := |userIds| - 1;
      Receivers(users, userIds[..n]) + (if MayReceive(users, userIds[n]) then [userIds[n]] else [])
  }

  predicate MayReceive(users: map<nat, Account>, userId: nat) {
    userId in users && users[userId].employmentStatus == "active"
  }

  class Access {
    const users: map<nat, Account>
    var access: map<string, string>
    ghost var grants: map<Grant, string>

    ghost predicate Valid()
      reads this
    {
      Encodes(access, grants) && forall g :: g in grants ==> g.userId in users
    }

    constructor (users: map<nat, Account>)
      ensures Valid() && grants == map[] && this.users == users
    {
      this.users := users;
      access, grants := map[], map[];
    }

    method GrantAccess(sheetId: nat, userIds: seq<nat>, permission: string) returns (granted: seq<nat>)
      requires Valid()
      modifies this
      ensures Valid()
      ensures granted == Receivers(users, userIds)
      ensures forall u :: u in granted <==> u in userIds && u in users && users[u].employmentStatus == "active"
      ensures forall g :: g in grants <==> g in old(grants) || (g.sheetId == sheetId && g.userId in granted)
      ensures forall g :: g in grants ==>
                grants[g] == if g.sheetId == sheetId && g.userId in granted then permission else old(grants)[g]
    {
      hide Encodes;
      granted := [];
      for i := 0 to |userIds|
        invariant Valid()
        invariant granted == Receivers(users, userIds[..i])
        invariant forall u :: u in granted <==> u in userIds[..i] && MayReceive(users, u)
        invariant forall g :: g in grants <==> g in old(grants) || (g.sheetId == sheetId && g.userId in granted)
        invariant forall g :: g in grants ==>
                    grants[g] == if g.sheetId == sheetId && g.userId in granted then permission else old(grants)[g]
      {
        var id := userIds[i];
        if id in users && users[id].employmentStatus == "active" {
          EncodesSet(access, grants, Grant(sheetId, id), permission);
          access := access[AccessKey(sheetId, id) := permission];
          grants := grants[Grant(sheetId, id) := permission];
          granted := granted + [id];
        }
        assert userIds[..i + 1] == userIds[..i] + [userIds[i]] && userIds[..i + 1][..i] == userIds[..i];
      }
      assert userIds[..|userIds|] == userIds;
    }

    method RevokeAccess(sheetId: nat, userId: nat) returns (existed: bool)
      requires Valid()
      modifies this
      ensures Valid()
      ensures existed == (Grant(sheetId, userId) in old(grants))
      ensures grants == old(grants) - {Grant(sheetId, userId)}
    {
      var key := AccessKey(sheetId, userId);
      EncodesDelete(access, grants, Grant(sheetId, userId));
      existed := key in access;
      access := access - {key};
      grants := grants - {Grant(sheetId, userId)};
    }

    /** Every decoded user exists, so reading `full_name` never fails. */
    method ListAccess(sheetId: nat) returns (r: set<Listed>)
      requires Valid()
      ensures r == set g | g in grants && g.sheetId == sheetId :: Listed(g.userId, grants[g], users[g.userId].fullName)
    {
      ScanIsSelection(access, grants, sheetId);
      forall g | g in GrantsOf(grants, sheetId) ensures DecodeUser(AccessKey(g.sheetId, g.userId)) == g.userId {
        AccessKeyDecodes(g.sheetId, g.userId);
      }
      r := set k | k in ScanKeys(access, sheetId) :: Listed(DecodeUser(k), access[k], users[DecodeUser(k)].fullName);
      forall g | g in GrantsOf(grants, sheetId) ensures Listed(g.userId, grants[g], users[g.userId].fullName) in r {
        assert AccessKey(g.sheetId, g.userId) in ScanKeys(access, sheetId);
      }
    }

    /** `assigned_count` in the admin list. */
    method AssignedCount(sheetId: nat) returns (n: nat)
      requires Valid()
      ensures n == |set g | g in grants && g.sheetId == sheetId|
    {
      ScanIsSelection(access, grants, sheetId);
      KeysCount(GrantsOf(grants, sheetId));
      n := |ScanKeys(access, sheetId)|;
    }
  }
}
