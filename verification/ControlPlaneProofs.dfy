/**
 What every run of control-plane transactions keeps.
 */
module ControlPlaneProofs {
  import opened ControlPlane
  import opened Wrappers

  datatype MemberOp =
    | CreateWorkspace(principal: Id, workspace: Id, general: Id)
    | UpdateMembership(auth: Auth, principal: Id, role: Option<Role>, active: Option<bool>)
    | AcceptInvitation(invitation: Option<(Id, Role)>, principal: Id)

  datatype ShareOp =
    | CreateShare(auth: Auth, id: Id, recipient: Id)
    | ApproveShare(auth: Auth, id: Id)
    | RejectShare(auth: Auth, id: Id)
    | RevokeShare(auth: Auth, id: Id)

  datatype LinkOp =
    | CreateLink(auth: Auth, id: Id, source: Id, target: Id)
    | ApproveLink(auth: Auth, id: Id)
    | DeleteLink(auth: Auth, id: Id)

  datatype GrantOp =
    | CreateGrant(auth: Auth, id: Id, link: Id, project: Id)
    | AcceptGrant(auth: Auth, id: Id)
    | RevokeGrant(auth: Auth, id: Id)
    | CreateAssignment(auth: Auth, id: Id, grant: Id, assignee: Option<Id>)

  datatype TransferOp =
    | CreateTransfer(auth: Auth, id: Id, sourceProject: Id, target: Id, targetProject: Id, record: Id)
    | ApproveTransfer(auth: Auth, id: Id)
    | RejectTransfer(auth: Auth, id: Id)
    | CompleteTransfer(auth: Auth, id: Id)

  datatype Op = OnMembers(m: MemberOp) | OnShares(h: ShareOp) | OnLinks(l: LinkOp) | OnGrants(g: GrantOp) | OnTransfers(x: TransferOp)

  function PerformMember(s: State, op: MemberOp): Outcome {
    match op
    case CreateWorkspace(principal, workspace, general) => CreateWorkspaceOutcome(s, principal, workspace, general)
    case UpdateMembership(auth, principal, role, active) => UpdateMembershipOutcome(s, auth, principal, role, active)
    case AcceptInvitation(invitation, principal) => AcceptInvitationOutcome(s, invitation, principal)
  }

  function PerformShare(s: State, op: ShareOp): Outcome {
    match op
    case CreateShare(auth, id, recipient) => CreateShareOutcome(s, auth, id, recipient)
    case ApproveShare(auth, id) => ApproveShareOutcome(s, auth, id)
    case RejectShare(auth, id) => RejectShareOutcome(s, auth, id)
    case RevokeShare(auth, id) => RevokeShareOutcome(s, auth, id)
  }

  function PerformLink(s: State, op: LinkOp): Outcome {
    match op
    case CreateLink(auth, id, source, target) => CreateLinkOutcome(s, auth, id, source, target)
    case ApproveLink(auth, id) => ApproveLinkOutcome(s, auth, id)
    case DeleteLink(auth, id) => DeleteLinkOutcome(s, auth, id)
  }

  function PerformGrant(s: State, op: GrantOp): Outcome {
    match op
    case CreateGrant(auth, id, link, project) => CreateGrantOutcome(s, auth, id, link, project)
    case AcceptGrant(auth, id) => AcceptGrantOutcome(s, auth, id)
    case RevokeGrant(auth, id) => RevokeGrantOutcome(s, auth, id)
    case CreateAssignment(auth, id, grant, assignee) => CreateAssignmentOutcome(s, auth, id, grant, assignee)
  }

  function PerformTransfer(s: State, op: TransferOp): Outcome {
    match op
    case CreateTransfer(auth, id, sourceProject, target, targetProject, record) =>
      CreateTransferOutcome(s, auth, id, sourceProject, target, targetProject, record)
    case ApproveTransfer(auth, id) => ApproveTransferOutcome(s, auth, id)
    case RejectTransfer(auth, id) => RejectTransferOutcome(s, auth, id)
    case CompleteTransfer(auth, id) => CompleteTransferOutcome(s, auth, id)
  }

  /** The state after a transaction, committed or not. */
  function Ended(s: State, o: Outcome): State {
    match o
    case Done(t) => t
    case Fail(_) => s
  }

  function After(s: State, op: Op): State {
    Ended(s, match op
             case OnMembers(m) => PerformMember(s, m)
             case OnShares(h) => PerformShare(s, h)
             case OnLinks(l) => PerformLink(s, l)
             case OnGrants(g) => PerformGrant(s, g)
             case OnTransfers(x) => PerformTransfer(s, x))
  }

  // Invariants

  ghost predicate OwnersExist(s: State) {
    forall w | w in s.workspaces :: exists p :: IsOwner(s, w, p)
  }

  ghost predicate LinkOk(link: Link) {
    && link.source != link.target
    && (link.status == LinkActive ==> link.sourceApproved.Some? && link.targetApproved.Some?)
  }

  ghost predicate LinksOk(links: map<Id, Link>) {
    && (forall i | i in links :: LinkOk(links[i]))
    && forall i, j | i in links && j in links && links[i].source == links[j].source && links[i].target == links[j].target :: i == j
  }

  /** A grant that is not revoked hangs off an active link, and aims where the link does. */
  ghost predicate GrantOk(links: map<Id, Link>, grant: Grant) {
    && grant.link in links
    && (grant.status != GrantRevoked ==> links[grant.link].status == LinkActive && links[grant.link].target == grant.target)
    && (grant.status == GrantActive ==> grant.acceptedBy.Some?)
  }

  ghost predicate GrantsOk(links: map<Id, Link>, grants: map<Id, Grant>) {
    forall g | g in grants :: GrantOk(links, grants[g])
  }

  /** An active assignment is on an active grant, or on one whose link was revoked. */
  ghost predicate AssignmentsOk(s: State) {
    forall a | a in s.assignments ::
      && s.assignments[a].grant in s.grants
      && (s.assignments[a].active ==>
            || s.grants[s.assignments[a].grant].status == GrantActive
            || (s.grants[s.assignments[a].grant].status == GrantRevoked
                && s.grants[s.assignments[a].grant].link in s.links && s.links[s.grants[s.assignments[a].grant].link].status == LinkRevoked))
  }

  ghost predicate SharesOk(shares: map<Id, Share>) {
    && (forall i | i in shares :: shares[i].owner != shares[i].recipient && (shares[i].status == ShareActive ==> shares[i].recipientApproved.Some?))
    && forall i, j | i in shares && j in shares && Live(shares[i]) && Live(shares[j])
                     && shares[i].owner == shares[j].owner && shares[i].recipient == shares[j].recipient :: i == j
  }

  ghost predicate TransferOk(t: Transfer) {
    && t.source != t.target
    && (t.status in {PendingTarget, Approved, Completed} ==> t.sourceApproved.Some?)
    && (t.status in {Approved, Completed} ==> t.targetApproved.Some?)
  }

  ghost predicate TransfersOk(transfers: map<Id, Transfer>) {
    forall i | i in transfers :: TransferOk(transfers[i])
  }

  ghost predicate Inv(s: State) {
    OwnersExist(s) && LinksOk(s.links) && GrantsOk(s.links, s.grants) && AssignmentsOk(s) && SharesOk(s.shares) && TransfersOk(s.transfers)
  }

  // One transaction

  lemma TwoOwners(owners: set<Id>, p: Id)
    requires |owners| > 1
    ensures exists q :: q in owners && q != p
  {
    assert |owners - {p}| >= |owners| - 1;
    var q :| q in owners - {p};
  }

  lemma MemberFrame(s: State, op: MemberOp, t: State)
    requires t == Ended(s, PerformMember(s, op))
    ensures t == s.(workspaces := t.workspaces, projects := t.projects, members := t.members)
  {
  }

  lemma ShareFrame(s: State, op: ShareOp, t: State)
    requires t == Ended(s, PerformShare(s, op))
    ensures t == s.(shares := t.shares)
  {
  }

  lemma LinkFrame(s: State, op: LinkOp, t: State)
    requires t == Ended(s, PerformLink(s, op))
    ensures t == s.(links := t.links, grants := t.grants)
  {
  }

  lemma GrantFrame(s: State, op: GrantOp, t: State)
    requires t == Ended(s, PerformGrant(s, op))
    ensures t == s.(grants := t.grants, assignments := t.assignments)
  {
  }

  lemma CreateTransferFrame(s: State, op: TransferOp, t: State)
    requires op.CreateTransfer? && t == Ended(s, PerformTransfer(s, op))
    ensures t == s.(transfers := t.transfers)
  {
  }

  lemma ApproveTransferFrame(s: State, op: TransferOp, t: State)
    requires op.ApproveTransfer? && t == Ended(s, PerformTransfer(s, op))
    ensures t == s.(transfers := t.transfers)
  {
    var o := ApproveTransferOutcome(s, op.auth, op.id);
    if o.Done? {
      assert s.transfers[op.id].status in {PendingSource, PendingTarget};
    }
  }

  lemma TransferFrame(s: State, op: TransferOp, t: State)
    requires t == Ended(s, PerformTransfer(s, op))
    ensures t == s.(transfers := t.transfers)
  {
    match op
    case CreateTransfer(_, _, _, _, _, _) => CreateTransferFrame(s, op, t);
    case ApproveTransfer(_, _) => ApproveTransferFrame(s, op, t);
    case RejectTransfer(_, _) =>
    case CompleteTransfer(_, _) =>
  }

  lemma OwnersStay(s: State, t: State)
    requires OwnersExist(s) && t.workspaces == s.workspaces
    requires forall w, p | IsOwner(s, w, p) :: IsOwner(t, w, p)
    ensures OwnersExist(t)
  {
    forall v | v in t.workspaces ensures exists p :: IsOwner(t, v, p) {
      var p :| IsOwner(s, v, p);
      assert IsOwner(t, v, p);
    }
  }

  lemma UpdateKeepsOwners(s: State, op: MemberOp, t: State)
    requires OwnersExist(s) && op.UpdateMembership? && t == Ended(s, PerformMember(s, op))
    ensures OwnersExist(t)
  {
    if t != s {
      var w := op.auth.workspace;
      forall v | v in t.workspaces ensures exists p :: IsOwner(t, v, p) {
        var p :| IsOwner(s, v, p);
        if v == w && RemovesOwner(s.members[(w, op.principal)], op.role, op.active) {
          TwoOwners(Owners(s, w), op.principal);
          var q :| q in Owners(s, w) && q != op.principal;
          assert IsOwner(t, v, q);
        } else {
          assert IsOwner(t, v, p);
        }
      }
    }
  }

  lemma CreateKeepsOwners(s: State, op: MemberOp, t: State)
    requires OwnersExist(s) && op.CreateWorkspace? && t == Ended(s, PerformMember(s, op))
    ensures OwnersExist(t)
  {
    forall v | v in t.workspaces ensures exists p :: IsOwner(t, v, p) {
      if v in s.workspaces {
        var p :| IsOwner(s, v, p);
        assert IsOwner(t, v, p);
      } else {
        assert IsOwner(t, v, op.principal);
      }
    }
  }

  lemma MemberKeepsOwners(s: State, op: MemberOp, t: State)
    requires OwnersExist(s) && t == Ended(s, PerformMember(s, op))
    ensures OwnersExist(t)
  {
    match op
    case UpdateMembership(_, _, _, _) => UpdateKeepsOwners(s, op, t);
    case CreateWorkspace(_, _, _) => CreateKeepsOwners(s, op, t);
    case AcceptInvitation(_, _) => OwnersStay(s, t);
  }

  lemma ShareKeeps(s: State, op: ShareOp, t: State)
    requires SharesOk(s.shares) && t == Ended(s, PerformShare(s, op))
    ensures SharesOk(t.shares)
  {
  }

  lemma LinkKeepsLinks(s: State, op: LinkOp, t: State)
    requires LinksOk(s.links) && t == Ended(s, PerformLink(s, op))
    ensures LinksOk(t.links)
  {
  }

  lemma LinkKeepsGrants(s: State, op: LinkOp, t: State)
    requires GrantsOk(s.links, s.grants) && t == Ended(s, PerformLink(s, op))
    ensures GrantsOk(t.links, t.grants)
  {
  }

  lemma LinkKeepsAssignments(s: State, op: LinkOp, t: State)
    requires GrantsOk(s.links, s.grants) && AssignmentsOk(s) && t == Ended(s, PerformLink(s, op))
    ensures AssignmentsOk(t)
  {
  }

  lemma GrantKeepsGrants(s: State, op: GrantOp, t: State)
    requires GrantsOk(s.links, s.grants) && t == Ended(s, PerformGrant(s, op))
    ensures GrantsOk(t.links, t.grants)
  {
  }

  lemma GrantKeepsAssignments(s: State, op: GrantOp, t: State)
    requires GrantsOk(s.links, s.grants) && AssignmentsOk(s) && t == Ended(s, PerformGrant(s, op))
    ensures AssignmentsOk(t)
  {
  }

  lemma OneTransferOk(transfers: map<Id, Transfer>, id: Id, t: Transfer)
    requires TransfersOk(transfers) && TransferOk(t)
    ensures TransfersOk(transfers[id := t])
  {
  }

  /** Nothing happens, or one transfer is written, and a proper one. */
  ghost predicate TransferStep(s: State, id: Id, t: State) {
    t == s || (id in t.transfers && t.transfers == s.transfers[id := t.transfers[id]] && TransferOk(t.transfers[id]))
  }

  lemma CreateTransferStep(s: State, op: TransferOp, t: State)
    requires op.CreateTransfer? && LinksOk(s.links) && t == Ended(s, PerformTransfer(s, op))
    ensures TransferStep(s, op.id, t)
  {
    if t != s {
      var i :| i in s.links && s.links[i].source == op.auth.workspace && s.links[i].target == op.target && s.links[i].status == LinkActive;
      assert LinkOk(s.links[i]);
    }
  }

  lemma OneTransferStep(s: State, id: Id, x: Transfer)
    requires TransferOk(x)
    ensures TransferStep(s, id, s.(transfers := s.transfers[id := x]))
  {
  }

  lemma ApproveTransferStep(s: State, op: TransferOp, t: State)
    requires op.ApproveTransfer? && TransfersOk(s.transfers) && t == Ended(s, PerformTransfer(s, op))
    ensures TransferStep(s, op.id, t)
  {
    var o := ApproveTransferOutcome(s, op.auth, op.id);
    if o.Done? {
      var x := s.transfers[op.id];
      assert TransferOk(x);
      var y := if x.status == PendingSource then x.(sourceApproved := Some(op.auth.principal), status := PendingTarget)
               else x.(targetApproved := Some(op.auth.principal), status := Approved);
      OneTransferStep(s, op.id, y);
      assert t == s.(transfers := s.transfers[op.id := y]);
    }
  }

  lemma RejectTransferStep(s: State, op: TransferOp, t: State)
    requires op.RejectTransfer? && TransfersOk(s.transfers) && t == Ended(s, PerformTransfer(s, op))
    ensures TransferStep(s, op.id, t)
  {
    if op.id in s.transfers {
      assert TransferOk(s.transfers[op.id]);
    }
  }

  lemma CompleteTransferStep(s: State, op: TransferOp, t: State)
    requires op.CompleteTransfer? && TransfersOk(s.transfers) && t == Ended(s, PerformTransfer(s, op))
    ensures TransferStep(s, op.id, t)
  {
    if op.id in s.transfers {
      assert TransferOk(s.transfers[op.id]);
    }
  }

  lemma TransferSteps(s: State, op: TransferOp, t: State)
    requires LinksOk(s.links) && TransfersOk(s.transfers) && t == Ended(s, PerformTransfer(s, op))
    ensures TransferStep(s, op.id, t)
  {
    match op
    case CreateTransfer(_, _, _, _, _, _) => CreateTransferStep(s, op, t);
    case ApproveTransfer(_, _) => ApproveTransferStep(s, op, t);
    case RejectTransfer(_, _) => RejectTransferStep(s, op, t);
    case CompleteTransfer(_, _) => CompleteTransferStep(s, op, t);
  }

  lemma TransferKeeps(s: State, op: TransferOp, t: State)
    requires LinksOk(s.links) && TransfersOk(s.transfers) && t == Ended(s, PerformTransfer(s, op))
    ensures TransfersOk(t.transfers)
  {
    TransferSteps(s, op, t);
    if t != s {
      OneTransferOk(s.transfers, op.id, t.transfers[op.id]);
    }
  }

  lemma NextKeepsInvariant(s: State, op: Op)
    requires Inv(s)
    ensures Inv(After(s, op))
  {
    var t := After(s, op);
    match op
    case OnMembers(m) =>
      MemberFrame(s, m, t);
      MemberKeepsOwners(s, m, t);
    case OnShares(h) =>
      ShareFrame(s, h, t);
      ShareKeeps(s, h, t);
      OwnersStay(s, t);
    case OnLinks(l) =>
      LinkFrame(s, l, t);
      LinkKeepsLinks(s, l, t);
      LinkKeepsGrants(s, l, t);
      LinkKeepsAssignments(s, l, t);
      OwnersStay(s, t);
    case OnGrants(g) =>
      GrantFrame(s, g, t);
      GrantKeepsGrants(s, g, t);
      GrantKeepsAssignments(s, g, t);
      OwnersStay(s, t);
    case OnTransfers(x) =>
      TransferFrame(s, x, t);
      TransferKeeps(s, x, t);
      OwnersStay(s, t);
  }

  // Runs

  const EMPTY := State({}, map[], map[], map[], map[], map[], map[], map[])

  function Run(s: State, ops: seq<Op>): State {
    if ops == [] then s else After(Run(s, ops[..|ops| - 1]), ops[|ops| - 1])
  }

  lemma {:induction false} RunKeepsInvariant(s: State, ops: seq<Op>)
    requires Inv(s)
    ensures Inv(Run(s, ops))
    decreases |ops|
  {
    if ops != [] {
      RunKeepsInvariant(s, ops[..|ops| - 1]);
      NextKeepsInvariant(Run(s, ops[..|ops| - 1]), ops[|ops| - 1]);
    }
  }

  /**
   In every state the service can reach: each workspace has an active owner; a pending or active
   grant hangs off an active link; active links and shares, and approved or completed transfers,
   carry both sides' approvals; an ordered pair of workspaces has one link at most, and one live share.
   */
  lemma EveryRunKeepsInvariant(ops: seq<Op>)
    ensures var s := Run(EMPTY, ops);
            && (forall w | w in s.workspaces :: exists p :: IsOwner(s, w, p))
            && (forall g | g in s.grants && s.grants[g].status != GrantRevoked ::
                  s.grants[g].link in s.links && s.links[s.grants[g].link].status == LinkActive)
            && (forall i | i in s.links && s.links[i].status == LinkActive ::
                  s.links[i].sourceApproved.Some? && s.links[i].targetApproved.Some?)
            && (forall i | i in s.shares && s.shares[i].status == ShareActive :: s.shares[i].recipientApproved.Some?)
            && (forall i | i in s.transfers && s.transfers[i].status in {Approved, Completed} ::
                  s.transfers[i].sourceApproved.Some? && s.transfers[i].targetApproved.Some?)
            && (forall i, j | i in s.links && j in s.links && s.links[i].source == s.links[j].source && s.links[i].target == s.links[j].target :: i == j)
            && (forall i, j | i in s.shares && j in s.shares && Live(s.shares[i]) && Live(s.shares[j])
                              && s.shares[i].owner == s.shares[j].owner && s.shares[i].recipient == s.shares[j].recipient :: i == j)
  {
    RunKeepsInvariant(EMPTY, ops);
    var s := Run(EMPTY, ops);
    forall g | g in s.grants && s.grants[g].status != GrantRevoked
      ensures s.grants[g].link in s.links && s.links[s.grants[g].link].status == LinkActive
    {
      assert GrantOk(s.links, s.grants[g]);
    }
    forall i | i in s.links && s.links[i].status == LinkActive ensures s.links[i].sourceApproved.Some? && s.links[i].targetApproved.Some? {
      assert LinkOk(s.links[i]);
    }
    forall i | i in s.transfers && s.transfers[i].status in {Approved, Completed}
      ensures s.transfers[i].sourceApproved.Some? && s.transfers[i].targetApproved.Some?
    {
      assert TransferOk(s.transfers[i]);
    }
  }
}
