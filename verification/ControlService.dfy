/**
 The service itself: one method a handler, which checks and writes step by step
 (apps/control/neuromem_control/services.py:153-172, 325-420, 482-540, 691-1183;
 apps/control/neuromem_control/app.py:1460-1487). Each commits exactly the outcome ControlPlane.dfy
 gives for it, touches no other table, keeps the invariant over all of them, and succeeds only as a
 move the caller may make.
 */
module ControlService {
  import opened ControlPlane
  import opened ControlPlaneMoves
  import opened ControlPlaneProofs
  import opened Wrappers

  /** A transaction commits the state of its outcome, or fails with a status and changes nothing. */
  ghost predicate Committed(before: State, o: Outcome, after: State, code: int) {
    match o
    case Done(t) => after == t && code == 200
    case Fail(c) => after == before && code == c
  }

  lemma RevokeGrantCommits(s: State, auth: Auth, id: Id, t: State)
    requires Inv(s) && RevokeGrantOutcome(s, auth, id) == Done(t)
    ensures Inv(t) && id in s.grants && id in t.grants
    ensures GrantMove(s, auth, s.grants[id], t.grants[id]) && t.grants[id].status == GrantRevoked
  {
    NextKeepsInvariant(s, OnGrants(GrantOp.RevokeGrant(auth, id)));
  }

  lemma DeleteLinkCommits(s: State, auth: Auth, id: Id, t: State)
    requires Inv(s) && DeleteLinkOutcome(s, auth, id) == Done(t)
    ensures Inv(t) && id in s.links && id in t.links
    ensures LinkMove(s, auth, s.links[id], t.links[id]) && t.links[id].status == LinkRevoked
  {
    NextKeepsInvariant(s, OnLinks(LinkOp.DeleteLink(auth, id)));
  }

  class Service {
    var workspaces: set<Id>
    var projects: map<Id, Id>
    var members: map<(Id, Id), Membership>
    var links: map<Id, Link>
    var grants: map<Id, Grant>
    var assignments: map<Id, Assignment>
    var shares: map<Id, Share>
    var transfers: map<Id, Transfer>

    constructor ()
      ensures Valid() && Snapshot() == EMPTY
    {
      workspaces, projects, members, links := {}, map[], map[], map[];
      grants, assignments, shares, transfers := map[], map[], map[], map[];
    }

    function Snapshot(): State
      reads this
    {
      State(workspaces, projects, members, links, grants, assignments, shares, transfers)
    }

    ghost predicate Valid()
      reads this
    {
      Inv(Snapshot())
    }

    method CreateWorkspace(principal: Id, workspace: Id, general: Id) returns (code: int)
      requires Valid()
      modifies `workspaces, `projects, `members
      ensures Valid()
      ensures code == 200 ==> workspace !in old(workspaces) && workspace in workspaces && IsOwner(Snapshot(), workspace, principal)
      ensures Committed(old(Snapshot()), CreateWorkspaceOutcome(old(Snapshot()), principal, workspace, general), Snapshot(), code)
    {
      NextKeepsInvariant(Snapshot(), OnMembers(MemberOp.CreateWorkspace(principal, workspace, general)));
      if workspace in workspaces || general in projects {
        return 409;
      }
      workspaces := workspaces + {workspace};
      members := members[(workspace, principal) := Membership(Owner, true)];
      projects := projects[general := workspace];
      return 200;
    }

    method UpdateMembership(auth: Auth, principal: Id, role: Option<Role>, active: Option<bool>) returns (code: int)
      requires Valid()
      modifies `members
      ensures Valid()
      ensures code == 200 ==>
                && (auth.workspace, principal) in old(members) && (auth.workspace, principal) in members
                && MemberUpdate(old(Snapshot()), auth, old(members)[(auth.workspace, principal)], members[(auth.workspace, principal)])
      ensures Committed(old(Snapshot()), UpdateMembershipOutcome(old(Snapshot()), auth, principal, role, active), Snapshot(), code)
    {
      NextKeepsInvariant(Snapshot(), OnMembers(MemberOp.UpdateMembership(auth, principal, role, active)));
      var key := (auth.workspace, principal);
      if key !in members {
        return 404;
      }
      var membership := members[key];
      if "workspace.admin" !in auth.capabilities || !IsActive(Snapshot(), auth.workspace, auth.principal) {
        return 403;
      }
      var actor := members[(auth.workspace, auth.principal)];
      if actor.role != Owner && (membership.role == Owner || role == Some(Owner)) {
        return 403;
      }
      if RemovesOwner(membership, role, active) && |Owners(Snapshot(), auth.workspace)| <= 1 {
        return 409;
      }
      if role.Some? {
        membership := membership.(role := role.value);
      }
      if active.Some? {
        membership := membership.(active := active.value);
      }
      members := members[key := membership];
      return 200;
    }

    method AcceptInvitation(invitation: Option<(Id, Role)>, principal: Id) returns (code: int)
      requires Valid()
      modifies `members
      ensures Valid()
      ensures code == 200 ==>
                && invitation.Some? && !IsActive(old(Snapshot()), invitation.value.0, principal)
                && (invitation.value.0, principal) in members && members[(invitation.value.0, principal)] == Membership(invitation.value.1, true)
      ensures Committed(old(Snapshot()), AcceptInvitationOutcome(old(Snapshot()), invitation, principal), Snapshot(), code)
    {
      NextKeepsInvariant(Snapshot(), OnMembers(MemberOp.AcceptInvitation(invitation, principal)));
      if invitation.None? {
        return 400;
      }
      var (workspace, role) := invitation.value;
      if workspace !in workspaces {
        return 409;
      }
      var key := (workspace, principal);
      if key !in members {
        members := members[key := Membership(role, true)];
      } else if members[key].active {
        return 409;
      } else {
        members := members[key := members[key].(role := role, active := true)];
      }
      return 200;
    }

    method CreateShare(auth: Auth, id: Id, recipient: Id) returns (code: int)
      requires Valid()
      modifies `shares
      ensures Valid()
      ensures code == 200 ==> id !in old(shares) && id in shares && ShareBirth(old(Snapshot()), auth, shares[id])
      ensures Committed(old(Snapshot()), CreateShareOutcome(old(Snapshot()), auth, id, recipient), Snapshot(), code)
    {
      NextKeepsInvariant(Snapshot(), OnShares(ShareOp.CreateShare(auth, id, recipient)));
      if "federation.manage" !in auth.capabilities || !IsOwner(Snapshot(), auth.workspace, auth.principal) {
        return 403;
      }
      if auth.workspace == recipient {
        return 400;
      }
      if recipient !in workspaces {
        return 404;
      }
      if LivePair(Snapshot(), auth.workspace, recipient) || id in shares {
        return 409;
      }
      shares := shares[id := Share(auth.workspace, recipient, auth.principal, None, ShareProposed)];
      return 200;
    }

    method ApproveShare(auth: Auth, id: Id) returns (code: int)
      requires Valid()
      modifies `shares
      ensures Valid()
      ensures code == 200 ==> id in old(shares) && id in shares && ShareMove(old(Snapshot()), auth, old(shares)[id], shares[id]) && shares[id].status == ShareActive
      ensures Committed(old(Snapshot()), ApproveShareOutcome(old(Snapshot()), auth, id), Snapshot(), code)
    {
      NextKeepsInvariant(Snapshot(), OnShares(ShareOp.ApproveShare(auth, id)));
      if id !in shares {
        return 404;
      }
      var share := shares[id];
      if share.status != ShareProposed {
        return 409;
      }
      if auth.workspace != share.recipient || !IsOwner(Snapshot(), auth.workspace, auth.principal) {
        return 403;
      }
      share := share.(recipientApproved := Some(auth.principal));
      share := share.(status := ShareActive);
      shares := shares[id := share];
      return 200;
    }

    method RejectShare(auth: Auth, id: Id) returns (code: int)
      requires Valid()
      modifies `shares
      ensures Valid()
      ensures code == 200 ==> id in old(shares) && id in shares && ShareMove(old(Snapshot()), auth, old(shares)[id], shares[id]) && shares[id].status == ShareRejected
      ensures Committed(old(Snapshot()), RejectShareOutcome(old(Snapshot()), auth, id), Snapshot(), code)
    {
      NextKeepsInvariant(Snapshot(), OnShares(ShareOp.RejectShare(auth, id)));
      if id !in shares {
        return 404;
      }
      var share := shares[id];
      if share.status != ShareProposed {
        return 409;
      }
      if auth.workspace != share.recipient || !IsOwner(Snapshot(), auth.workspace, auth.principal) {
        return 403;
      }
      share := share.(status := ShareRejected);
      shares := shares[id := share];
      return 200;
    }

    method RevokeShare(auth: Auth, id: Id) returns (code: int)
      requires Valid()
      modifies `shares
      ensures Valid()
      ensures code == 200 ==> id in old(shares) && id in shares && ShareMove(old(Snapshot()), auth, old(shares)[id], shares[id]) && shares[id].status == ShareRevoked
      ensures Committed(old(Snapshot()), RevokeShareOutcome(old(Snapshot()), auth, id), Snapshot(), code)
    {
      NextKeepsInvariant(Snapshot(), OnShares(ShareOp.RevokeShare(auth, id)));
      if id !in shares {
        return 404;
      }
      var share := shares[id];
      if !Live(share) {
        return 409;
      }
      if auth.workspace !in {share.owner, share.recipient} || !IsOwner(Snapshot(), auth.workspace, auth.principal) {
        return 403;
      }
      share := share.(status := ShareRevoked);
      shares := shares[id := share];
      return 200;
    }

    method CreateLink(auth: Auth, id: Id, source: Id, target: Id) returns (code: int)
      requires Valid()
      modifies `links
      ensures Valid()
      ensures code == 200 ==> id !in old(links) && id in links && LinkBirth(old(Snapshot()), auth, links[id])
      ensures Committed(old(Snapshot()), CreateLinkOutcome(old(Snapshot()), auth, id, source, target), Snapshot(), code)
    {
      NextKeepsInvariant(Snapshot(), OnLinks(LinkOp.CreateLink(auth, id, source, target)));
      if source == target {
        return 400;
      }
      if auth.workspace !in {source, target} || !IsAdmin(Snapshot(), auth.workspace, auth.principal) {
        return 403;
      }
      if source !in workspaces || target !in workspaces {
        return 404;
      }
      if Linked(Snapshot(), source, target) || id in links {
        return 409;
      }
      var link := Link(source, target, None, None, LinkPending);
      if auth.workspace == source {
        link := link.(sourceApproved := Some(auth.principal));
      } else {
        link := link.(targetApproved := Some(auth.principal));
      }
      links := links[id := link];
      return 200;
    }

    method ApproveLink(auth: Auth, id: Id) returns (code: int)
      requires Valid()
      modifies `links
      ensures Valid()
      ensures code == 200 ==> id in old(links) && id in links && LinkMove(old(Snapshot()), auth, old(links)[id], links[id]) && links[id].status != LinkRevoked
      ensures Committed(old(Snapshot()), ApproveLinkOutcome(old(Snapshot()), auth, id), Snapshot(), code)
    {
      NextKeepsInvariant(Snapshot(), OnLinks(LinkOp.ApproveLink(auth, id)));
      if id !in links {
        return 404;
      }
      var link := links[id];
      if link.status != LinkPending {
        return 409;
      }
      if auth.workspace !in {link.source, link.target} || !IsAdmin(Snapshot(), auth.workspace, auth.principal) {
        return 403;
      }
      if auth.workspace == link.source {
        link := link.(sourceApproved := Some(auth.principal));
      } else {
        link := link.(targetApproved := Some(auth.principal));
      }
      if link.sourceApproved.Some? && link.targetApproved.Some? {
        link := link.(status := LinkActive);
      }
      links := links[id := link];
      return 200;
    }

    static method RevokeGrantsOf(grants: map<Id, Grant>, link: Id) returns (after: map<Id, Grant>)
      ensures after == RevokedGrants(grants, link)
    {
      after := grants;
      var left := set g | g in grants && grants[g].link == link && grants[g].status != GrantRevoked;
      while left != {}
        invariant after.Keys == grants.Keys
        invariant forall g | g in left :: g in grants && grants[g].link == link && grants[g].status != GrantRevoked
        invariant forall g | g in grants :: after[g] == if g in left then grants[g] else RevokedGrants(grants, link)[g]
        decreases |left|
      {
        var g :| g in left;
        after := after[g := after[g].(status := GrantRevoked)];
        left := left - {g};
      }
    }

    static method RevokeAssignmentsOf(assignments: map<Id, Assignment>, grant: Id) returns (after: map<Id, Assignment>)
      ensures after == RevokedAssignments(assignments, grant)
    {
      after := assignments;
      var left := set a | a in assignments && assignments[a].grant == grant && assignments[a].active;
      while left != {}
        invariant after.Keys == assignments.Keys
        invariant forall a | a in left :: a in assignments && assignments[a].grant == grant
        invariant forall a | a in assignments :: after[a] == if a in left then assignments[a] else RevokedAssignments(assignments, grant)[a]
        decreases |left|
      {
        var a :| a in left;
        after := after[a := after[a].(active := false)];
        left := left - {a};
      }
    }

    method DeleteLink(auth: Auth, id: Id) returns (code: int)
      requires Valid()
      modifies `links, `grants
      ensures Valid()
      ensures code == 200 ==> id in old(links) && id in links && LinkMove(old(Snapshot()), auth, old(links)[id], links[id]) && links[id].status == LinkRevoked
      ensures Committed(old(Snapshot()), DeleteLinkOutcome(old(Snapshot()), auth, id), Snapshot(), code)
    {
      ghost var before := Snapshot();
      if id !in links {
        return 404;
      }
      if auth.workspace !in {links[id].source, links[id].target} || !IsAdmin(Snapshot(), auth.workspace, auth.principal) {
        return 403;
      }
      links := links[id := links[id].(status := LinkRevoked)];
      grants := RevokeGrantsOf(grants, id);
      DeleteLinkCommits(before, auth, id, Snapshot());
      return 200;
    }

    method CreateGrant(auth: Auth, id: Id, link: Id, project: Id) returns (code: int)
      requires Valid()
      modifies `grants
      ensures Valid()
      ensures code == 200 ==> id !in old(grants) && id in grants && GrantBirth(old(Snapshot()), auth, grants[id])
      ensures Committed(old(Snapshot()), CreateGrantOutcome(old(Snapshot()), auth, id, link, project), Snapshot(), code)
    {
      NextKeepsInvariant(Snapshot(), OnGrants(GrantOp.CreateGrant(auth, id, link, project)));
      if link !in links || project !in projects {
        return 404;
      }
      if links[link].status != LinkActive {
        return 409;
      }
      if auth.workspace != links[link].source || !IsAdmin(Snapshot(), auth.workspace, auth.principal) {
        return 403;
      }
      if projects[project] != links[link].source {
        return 400;
      }
      if Granted(Snapshot(), link, project) || id in grants {
        return 409;
      }
      grants := grants[id := Grant(link, project, links[link].target, None, GrantPending)];
      return 200;
    }

    method AcceptGrant(auth: Auth, id: Id) returns (code: int)
      requires Valid()
      modifies `grants
      ensures Valid()
      ensures code == 200 ==> id in old(grants) && id in grants && GrantMove(old(Snapshot()), auth, old(grants)[id], grants[id]) && grants[id].status == GrantActive
      ensures Committed(old(Snapshot()), AcceptGrantOutcome(old(Snapshot()), auth, id), Snapshot(), code)
    {
      NextKeepsInvariant(Snapshot(), OnGrants(GrantOp.AcceptGrant(auth, id)));
      if id !in grants {
        return 404;
      }
      var grant := grants[id];
      if grant.status != GrantPending {
        return 409;
      }
      if auth.workspace != grant.target || !IsAdmin(Snapshot(), auth.workspace, auth.principal) {
        return 403;
      }
      grants := grants[id := grant.(status := GrantActive, acceptedBy := Some(auth.principal))];
      return 200;
    }

    method RevokeGrant(auth: Auth, id: Id) returns (code: int)
      requires Valid()
      modifies `grants, `assignments
      ensures Valid()
      ensures code == 200 ==> id in old(grants) && id in grants && GrantMove(old(Snapshot()), auth, old(grants)[id], grants[id]) && grants[id].status == GrantRevoked
      ensures Committed(old(Snapshot()), RevokeGrantOutcome(old(Snapshot()), auth, id), Snapshot(), code)
    {
      ghost var before := Snapshot();
      if id !in grants {
        return 404;
      }
      if grants[id].link !in links || auth.workspace !in {links[grants[id].link].source, links[grants[id].link].target}
         || !IsAdmin(Snapshot(), auth.workspace, auth.principal) {
        return 403;
      }
      grants := grants[id := grants[id].(status := GrantRevoked)];
      assignments := RevokeAssignmentsOf(assignments, id);
      RevokeGrantCommits(before, auth, id, Snapshot());
      return 200;
    }

    method CreateAssignment(auth: Auth, id: Id, grant: Id, principal: Option<Id>) returns (code: int)
      requires Valid()
      modifies `assignments
      ensures Valid()
      ensures code == 200 ==>
                && id !in old(assignments) && grant in grants && grants[grant].status == GrantActive
                && IsAdmin(Snapshot(), grants[grant].target, auth.principal)
      ensures Committed(old(Snapshot()), CreateAssignmentOutcome(old(Snapshot()), auth, id, grant, principal), Snapshot(), code)
    {
      NextKeepsInvariant(Snapshot(), OnGrants(GrantOp.CreateAssignment(auth, id, grant, principal)));
      if grant !in grants {
        return 404;
      }
      if grants[grant].status != GrantActive {
        return 409;
      }
      if auth.workspace != grants[grant].target || !IsAdmin(Snapshot(), auth.workspace, auth.principal) {
        return 403;
      }
      if principal.Some? && !IsActive(Snapshot(), auth.workspace, principal.value) {
        return 400;
      }
      if id in assignments {
        return 409;
      }
      assignments := assignments[id := Assignment(grant, true)];
      return 200;
    }

    method CreateTransfer(auth: Auth, id: Id, sourceProject: Id, target: Id, targetProject: Id, record: Id) returns (code: int)
      requires Valid()
      modifies `transfers
      ensures Valid()
      ensures code == 200 ==> id !in old(transfers) && id in transfers && TransferBirth(old(Snapshot()), auth, transfers[id])
      ensures Committed(old(Snapshot()), CreateTransferOutcome(old(Snapshot()), auth, id, sourceProject, target, targetProject, record), Snapshot(), code)
    {
      NextKeepsInvariant(Snapshot(), OnTransfers(TransferOp.CreateTransfer(auth, id, sourceProject, target, targetProject, record)));
      var source := auth.workspace;
      if auth.capabilities !! {"transfer.manage", "transfer.request"} {
        return 403;
      }
      if sourceProject !in projects || projects[sourceProject] != source {
        return 400;
      }
      if targetProject !in projects || projects[targetProject] != target {
        return 400;
      }
      if !ActiveLink(Snapshot(), source, target) || Requested(Snapshot(), source, sourceProject, targetProject, record) || id in transfers {
        return 409;
      }
      transfers := transfers[id := Transfer(source, sourceProject, target, targetProject, record, None, None, PendingSource)];
      return 200;
    }

    method ApproveTransfer(auth: Auth, id: Id) returns (code: int)
      requires Valid()
      modifies `transfers
      ensures Valid()
      ensures code == 200 ==> id in old(transfers) && id in transfers && TransferMove(old(Snapshot()), auth, old(transfers)[id], transfers[id]) && transfers[id].status != Rejected
      ensures Committed(old(Snapshot()), ApproveTransferOutcome(old(Snapshot()), auth, id), Snapshot(), code)
    {
      NextKeepsInvariant(Snapshot(), OnTransfers(TransferOp.ApproveTransfer(auth, id)));
      if id !in transfers {
        return 404;
      }
      var transfer := transfers[id];
      if transfer.status == PendingSource {
        if auth.workspace != transfer.source || !IsAdmin(Snapshot(), auth.workspace, auth.principal) {
          return 403;
        }
        transfer := transfer.(sourceApproved := Some(auth.principal));
        transfer := transfer.(status := PendingTarget);
      } else if transfer.status == PendingTarget {
        if auth.workspace != transfer.target || !IsAdmin(Snapshot(), auth.workspace, auth.principal) {
          return 403;
        }
        transfer := transfer.(targetApproved := Some(auth.principal));
        transfer := transfer.(status := Approved);
      } else {
        return 409;
      }
      transfers := transfers[id := transfer];
      return 200;
    }

    method RejectTransfer(auth: Auth, id: Id) returns (code: int)
      requires Valid()
      modifies `transfers
      ensures Valid()
      ensures code == 200 ==> id in old(transfers) && id in transfers && TransferMove(old(Snapshot()), auth, old(transfers)[id], transfers[id]) && transfers[id].status == Rejected
      ensures Committed(old(Snapshot()), RejectTransferOutcome(old(Snapshot()), auth, id), Snapshot(), code)
    {
      NextKeepsInvariant(Snapshot(), OnTransfers(TransferOp.RejectTransfer(auth, id)));
      if id !in transfers {
        return 404;
      }
      var transfer := transfers[id];
      if transfer.status != PendingSource && transfer.status != PendingTarget {
        return 409;
      }
      var expected := if transfer.status == PendingSource then transfer.source else transfer.target;
      if auth.workspace != expected || !IsAdmin(Snapshot(), auth.workspace, auth.principal) {
        return 403;
      }
      transfers := transfers[id := transfer.(status := Rejected)];
      return 200;
    }

    method CompleteTransfer(auth: Auth, id: Id) returns (code: int)
      requires Valid()
      modifies `transfers
      ensures Valid()
      ensures code == 200 ==> id in old(transfers) && id in transfers && TransferMove(old(Snapshot()), auth, old(transfers)[id], transfers[id]) && transfers[id].status == Completed
      ensures Committed(old(Snapshot()), CompleteTransferOutcome(old(Snapshot()), auth, id), Snapshot(), code)
    {
      NextKeepsInvariant(Snapshot(), OnTransfers(TransferOp.CompleteTransfer(auth, id)));
      if id !in transfers {
        return 404;
      }
      var transfer := transfers[id];
      if transfer.status != Approved {
        return 409;
      }
      if auth.workspace != transfer.target || !IsAdmin(Snapshot(), auth.workspace, auth.principal) {
        return 403;
      }
      transfers := transfers[id := transfer.(status := Completed)];
      return 200;
    }
  }
}
