/**
 Who may change what in the control plane, over all its transactions, and what follows for whole
 runs: what has ended stays ended, every approval was given by someone who might give it then, and
 which assignments outlive their grant.
 */
module ControlPlaneMoves {
  import opened ControlPlane
  import opened ControlPlaneProofs
  import opened Wrappers

  // Memberships

  /** An active member with the capability changes a membership; an owner's needs an owner, and not the last one. */
  ghost predicate MemberUpdate(s: State, auth: Auth, from: Membership, to: Membership) {
    && "workspace.admin" in auth.capabilities && IsActive(s, auth.workspace, auth.principal)
    && (from.role == Owner || to.role == Owner ==> IsOwner(s, auth.workspace, auth.principal))
    && (from.role == Owner && (to.role != Owner || (from.active && !to.active)) ==> |Owners(s, auth.workspace)| > 1)
  }

  /** The ways a membership comes about or changes. */
  ghost predicate MemberMove(s: State, op: MemberOp, w: Id, p: Id, to: Membership) {
    match op
    case CreateWorkspace(principal, workspace, _) => w == workspace && w !in s.workspaces && p == principal && to == Membership(Owner, true)
    case UpdateMembership(auth, principal, _, _) =>
      w == auth.workspace && p == principal && (w, p) in s.members && MemberUpdate(s, auth, s.members[(w, p)], to)
    case AcceptInvitation(invitation, principal) =>
      w in s.workspaces && p == principal && !IsActive(s, w, p) && to.active && invitation.Some? && invitation.value.0 == w && invitation.value.1 == to.role
  }

  lemma UpdateMoves(s: State, auth: Auth, principal: Id, role: Option<Role>, active: Option<bool>, t: State)
    requires UpdateMembershipOutcome(s, auth, principal, role, active) == Done(t)
    ensures (auth.workspace, principal) in s.members
    ensures t == s.(members := s.members[(auth.workspace, principal) := Updated(s.members[(auth.workspace, principal)], role, active)])
    ensures MemberUpdate(s, auth, s.members[(auth.workspace, principal)], Updated(s.members[(auth.workspace, principal)], role, active))
  {
  }

  lemma OneMemberMoves(s: State, m: MemberOp, t: State, w: Id, p: Id)
    requires t == Ended(s, PerformMember(s, m))
    ensures (w, p) in s.members ==> (w, p) in t.members
    ensures (w, p) in t.members && ((w, p) !in s.members || t.members[(w, p)] != s.members[(w, p)])
            ==> MemberMove(s, m, w, p, t.members[(w, p)])
  {
    match m
    case CreateWorkspace(_, _, _) =>
    case UpdateMembership(auth, principal, role, active) =>
      if UpdateMembershipOutcome(s, auth, principal, role, active).Done? {
        UpdateMoves(s, auth, principal, role, active, t);
      }
    case AcceptInvitation(_, _) =>
  }

  /** A membership is never deleted, and made or changed in one of these ways only. */
  lemma MemberMoves(s: State, op: Op, t: State, w: Id, p: Id)
    requires t == After(s, op)
    ensures (w, p) in s.members ==> (w, p) in t.members
    ensures (w, p) in t.members && ((w, p) !in s.members || t.members[(w, p)] != s.members[(w, p)])
            ==> op.OnMembers? && MemberMove(s, op.m, w, p, t.members[(w, p)])
  {
    match op
    case OnMembers(m) => OneMemberMoves(s, m, t, w, p);
    case OnShares(h) => ShareFrame(s, h, t);
    case OnLinks(l) => LinkFrame(s, l, t);
    case OnGrants(g) => GrantFrame(s, g, t);
    case OnTransfers(x) => TransferFrame(s, x, t);
  }

  // Shares

  ghost predicate ShareBirth(s: State, auth: Auth, share: Share) {
    && IsOwner(s, share.owner, auth.principal) && "federation.manage" in auth.capabilities
    && !LivePair(s, share.owner, share.recipient)
    && share == Share(auth.workspace, share.recipient, auth.principal, None, ShareProposed)
  }

  /** A proposal is answered by an owner of the recipient; a live share is revoked by an owner of either side. */
  ghost predicate ShareMove(s: State, auth: Auth, from: Share, to: Share) {
    && IsOwner(s, auth.workspace, auth.principal)
    && (|| (from.status == ShareProposed && auth.workspace == from.recipient
            && to == from.(status := ShareActive, recipientApproved := Some(auth.principal)))
        || (from.status == ShareProposed && auth.workspace == from.recipient && to == from.(status := ShareRejected))
        || (Live(from) && auth.workspace in {from.owner, from.recipient} && to == from.(status := ShareRevoked)))
  }

  lemma OneShareMoves(s: State, h: ShareOp, t: State, i: Id)
    requires t == Ended(s, PerformShare(s, h)) && i in s.shares
    ensures i in t.shares && (t.shares[i] == s.shares[i] || ShareMove(s, h.auth, s.shares[i], t.shares[i]))
  {
  }

  lemma NewShare(s: State, h: ShareOp, t: State, i: Id)
    requires t == Ended(s, PerformShare(s, h)) && i !in s.shares && i in t.shares
    ensures ShareBirth(s, h.auth, t.shares[i])
  {
  }

  lemma ShareMoves(s: State, op: Op, t: State, i: Id)
    requires t == After(s, op)
    ensures i in s.shares ==> i in t.shares
                              && (t.shares[i] == s.shares[i] || (op.OnShares? && ShareMove(s, op.h.auth, s.shares[i], t.shares[i])))
    ensures i !in s.shares && i in t.shares ==> op.OnShares? && ShareBirth(s, op.h.auth, t.shares[i])
  {
    match op
    case OnMembers(m) => MemberFrame(s, m, t);
    case OnShares(h) =>
      if i in s.shares {
        OneShareMoves(s, h, t, i);
      } else if i in t.shares {
        NewShare(s, h, t, i);
      }
    case OnLinks(l) => LinkFrame(s, l, t);
    case OnGrants(g) => GrantFrame(s, g, t);
    case OnTransfers(x) => TransferFrame(s, x, t);
  }

  // Links

  ghost predicate LinkBirth(s: State, auth: Auth, link: Link) {
    && link.source != link.target && !Linked(s, link.source, link.target)
    && auth.workspace in {link.source, link.target} && IsAdmin(s, auth.workspace, auth.principal)
    && link == ApprovedBy(Link(link.source, link.target, None, None, LinkPending), auth)
  }

  /** An admin of either side approves for it, or revokes; approved by both it is active. */
  ghost predicate LinkMove(s: State, auth: Auth, from: Link, to: Link) {
    && auth.workspace in {from.source, from.target} && IsAdmin(s, auth.workspace, auth.principal)
    && (|| to == from.(status := LinkRevoked)
        || (from.status == LinkPending
            && to.(status := LinkPending) == ApprovedBy(from, auth)
            && to.status == if to.sourceApproved.Some? && to.targetApproved.Some? then LinkActive else LinkPending))
  }

  lemma OneLinkMoves(s: State, l: LinkOp, t: State, i: Id)
    requires t == Ended(s, PerformLink(s, l)) && i in s.links
    ensures i in t.links && (t.links[i] == s.links[i] || LinkMove(s, l.auth, s.links[i], t.links[i]))
  {
  }

  lemma NewLink(s: State, l: LinkOp, t: State, i: Id)
    requires t == Ended(s, PerformLink(s, l)) && i !in s.links && i in t.links
    ensures LinkBirth(s, l.auth, t.links[i])
  {
  }

  lemma LinkMoves(s: State, op: Op, t: State, i: Id)
    requires t == After(s, op)
    ensures i in s.links ==> i in t.links
                             && (t.links[i] == s.links[i] || (op.OnLinks? && LinkMove(s, op.l.auth, s.links[i], t.links[i])))
    ensures i !in s.links && i in t.links ==> op.OnLinks? && LinkBirth(s, op.l.auth, t.links[i])
  {
    match op
    case OnMembers(m) => MemberFrame(s, m, t);
    case OnShares(h) => ShareFrame(s, h, t);
    case OnLinks(l) =>
      if i in s.links {
        OneLinkMoves(s, l, t, i);
      } else if i in t.links {
        NewLink(s, l, t, i);
      }
    case OnGrants(g) => GrantFrame(s, g, t);
    case OnTransfers(x) => TransferFrame(s, x, t);
  }

  // Grants and assignments

  ghost predicate GrantBirth(s: State, auth: Auth, grant: Grant) {
    && grant.link in s.links && s.links[grant.link].status == LinkActive
    && auth.workspace == s.links[grant.link].source && IsAdmin(s, auth.workspace, auth.principal)
    && grant.project in s.projects && s.projects[grant.project] == auth.workspace && !Granted(s, grant.link, grant.project)
    && grant == Grant(grant.link, grant.project, s.links[grant.link].target, None, GrantPending)
  }

  /** An admin of the target accepts a pending grant; an admin of either side of its link revokes it. */
  ghost predicate GrantMove(s: State, auth: Auth, from: Grant, to: Grant) {
    && IsAdmin(s, auth.workspace, auth.principal)
    && (|| (from.status == GrantPending && auth.workspace == from.target
            && to == from.(status := GrantActive, acceptedBy := Some(auth.principal)))
        || (from.link in s.links && auth.workspace in {s.links[from.link].source, s.links[from.link].target}
            && to == from.(status := GrantRevoked)))
  }

  function Caller(op: Op): Auth
    requires op.OnGrants? || op.OnLinks?
  {
    if op.OnGrants? then op.g.auth else op.l.auth
  }

  lemma DeletedLinkMoves(s: State, l: LinkOp, t: State, i: Id)
    requires t == Ended(s, PerformLink(s, l))
    ensures t.grants.Keys == s.grants.Keys
    ensures i in s.grants ==> t.grants[i] == s.grants[i] || GrantMove(s, l.auth, s.grants[i], t.grants[i])
  {
  }

  lemma OneGrantMoves(s: State, g: GrantOp, t: State, i: Id)
    requires t == Ended(s, PerformGrant(s, g)) && i in s.grants
    ensures i in t.grants && (t.grants[i] == s.grants[i] || GrantMove(s, g.auth, s.grants[i], t.grants[i]))
  {
  }

  lemma NewGrant(s: State, g: GrantOp, t: State, i: Id)
    requires t == Ended(s, PerformGrant(s, g)) && i !in s.grants && i in t.grants
    ensures GrantBirth(s, g.auth, t.grants[i])
  {
  }

  lemma GrantMoves(s: State, op: Op, t: State, i: Id)
    requires t == After(s, op)
    ensures i in s.grants ==> i in t.grants
                              && (t.grants[i] == s.grants[i]
                                  || ((op.OnGrants? || op.OnLinks?) && GrantMove(s, Caller(op), s.grants[i], t.grants[i])))
    ensures i !in s.grants && i in t.grants ==> op.OnGrants? && GrantBirth(s, op.g.auth, t.grants[i])
  {
    match op
    case OnMembers(m) => MemberFrame(s, m, t);
    case OnShares(h) => ShareFrame(s, h, t);
    case OnLinks(l) => DeletedLinkMoves(s, l, t, i);
    case OnGrants(g) =>
      if i in s.grants {
        OneGrantMoves(s, g, t, i);
      } else if i in t.grants {
        NewGrant(s, g, t, i);
      }
    case OnTransfers(x) => TransferFrame(s, x, t);
  }

  lemma OneAssignmentMoves(s: State, g: GrantOp, t: State, i: Id)
    requires t == Ended(s, PerformGrant(s, g)) && i in s.assignments
    ensures i in t.assignments
    ensures t.assignments[i] == s.assignments[i]
            || (g.RevokeGrant? && g.id == s.assignments[i].grant && t.assignments[i] == Assignment(g.id, false)
                && g.id in t.grants && t.grants[g.id].status == GrantRevoked)
  {
  }

  lemma NewAssignment(s: State, g: GrantOp, t: State, i: Id)
    requires t == Ended(s, PerformGrant(s, g)) && i !in s.assignments && i in t.assignments
    ensures t.assignments[i].active && t.assignments[i].grant in s.grants
    ensures s.grants[t.assignments[i].grant].status == GrantActive
    ensures IsAdmin(s, s.grants[t.assignments[i].grant].target, g.auth.principal)
  {
  }

  /** An admin of the target assigns an active grant; only revoking that grant ends the assignment. */
  lemma AssignmentMoves(s: State, op: Op, t: State, i: Id)
    requires t == After(s, op)
    ensures i in s.assignments ==> i in t.assignments
                                   && (t.assignments[i] == s.assignments[i]
                                       || (op.OnGrants? && op.g.RevokeGrant? && op.g.id == s.assignments[i].grant
                                           && t.assignments[i] == Assignment(op.g.id, false)
                                           && op.g.id in t.grants && t.grants[op.g.id].status == GrantRevoked))
    ensures i !in s.assignments && i in t.assignments
            ==> op.OnGrants? && t.assignments[i].active && t.assignments[i].grant in s.grants
                && s.grants[t.assignments[i].grant].status == GrantActive
                && IsAdmin(s, s.grants[t.assignments[i].grant].target, op.g.auth.principal)
  {
    match op
    case OnMembers(m) => MemberFrame(s, m, t);
    case OnShares(h) => ShareFrame(s, h, t);
    case OnLinks(l) => LinkFrame(s, l, t);
    case OnGrants(g) =>
      if i in s.assignments {
        OneAssignmentMoves(s, g, t, i);
      } else if i in t.assignments {
        NewAssignment(s, g, t, i);
      }
    case OnTransfers(x) => TransferFrame(s, x, t);
  }

  // Transfers

  ghost predicate TransferBirth(s: State, auth: Auth, x: Transfer) {
    && !(auth.capabilities !! {"transfer.manage", "transfer.request"}) && x.source == auth.workspace
    && x.sourceProject in s.projects && s.projects[x.sourceProject] == x.source
    && x.targetProject in s.projects && s.projects[x.targetProject] == x.target
    && ActiveLink(s, x.source, x.target) && !Requested(s, x.source, x.sourceProject, x.targetProject, x.record)
    && x.sourceApproved.None? && x.targetApproved.None? && x.status == PendingSource
  }

  /** The side whose turn it is approves or rejects: source, then target; the target completes. */
  ghost predicate TransferMove(s: State, auth: Auth, from: Transfer, to: Transfer) {
    && IsAdmin(s, auth.workspace, auth.principal)
    && match from.status
       case PendingSource => auth.workspace == from.source
         && (to == from.(status := PendingTarget, sourceApproved := Some(auth.principal)) || to == from.(status := Rejected))
       case PendingTarget => auth.workspace == from.target
         && (to == from.(status := Approved, targetApproved := Some(auth.principal)) || to == from.(status := Rejected))
       case Approved => auth.workspace == from.target && to == from.(status := Completed)
       case _ => false
  }

  lemma ApprovalWritesOne(s: State, auth: Auth, id: Id, t: State)
    requires ApproveTransferOutcome(s, auth, id) == Done(t)
    ensures id in s.transfers && id in t.transfers && t.transfers == s.transfers[id := t.transfers[id]]
    ensures TransferMove(s, auth, s.transfers[id], t.transfers[id])
  {
    var x := s.transfers[id];
    if x.status == PendingSource {
      assert t == s.(transfers := s.transfers[id := x.(sourceApproved := Some(auth.principal), status := PendingTarget)]);
    } else {
      assert t == s.(transfers := s.transfers[id := x.(targetApproved := Some(auth.principal), status := Approved)]);
    }
  }

  lemma OneTransferMoves(s: State, x: TransferOp, t: State, i: Id)
    requires t == Ended(s, PerformTransfer(s, x)) && i in s.transfers
    ensures i in t.transfers && (t.transfers[i] == s.transfers[i] || TransferMove(s, x.auth, s.transfers[i], t.transfers[i]))
  {
    if x.ApproveTransfer? && ApproveTransferOutcome(s, x.auth, x.id).Done? {
      ApprovalWritesOne(s, x.auth, x.id, t);
    }
  }

  lemma NewTransfer(s: State, x: TransferOp, t: State, i: Id)
    requires t == Ended(s, PerformTransfer(s, x)) && i !in s.transfers && i in t.transfers
    ensures x.CreateTransfer? && TransferBirth(s, x.auth, t.transfers[i])
  {
    if x.ApproveTransfer? && ApproveTransferOutcome(s, x.auth, x.id).Done? {
      ApprovalWritesOne(s, x.auth, x.id, t);
      assert false;
    }
  }

  lemma TransferMoves(s: State, op: Op, t: State, i: Id)
    requires t == After(s, op)
    ensures i in s.transfers ==> i in t.transfers
                                 && (t.transfers[i] == s.transfers[i] || (op.OnTransfers? && TransferMove(s, op.x.auth, s.transfers[i], t.transfers[i])))
    ensures i !in s.transfers && i in t.transfers ==> op.OnTransfers? && TransferBirth(s, op.x.auth, t.transfers[i])
  {
    match op
    case OnMembers(m) => MemberFrame(s, m, t);
    case OnShares(h) => ShareFrame(s, h, t);
    case OnLinks(l) => LinkFrame(s, l, t);
    case OnGrants(g) => GrantFrame(s, g, t);
    case OnTransfers(x) =>
      if i in s.transfers {
        OneTransferMoves(s, x, t, i);
      } else if i in t.transfers {
        NewTransfer(s, x, t, i);
      }
  }

  // What has ended stays ended

  /** Whatever is revoked, rejected or completed in `s` is in `t` exactly as it is in `s`. */
  ghost predicate KeepsEnded(s: State, t: State) {
    && (forall i | i in s.links && s.links[i].status == LinkRevoked :: i in t.links && t.links[i] == s.links[i])
    && (forall i | i in s.grants && s.grants[i].status == GrantRevoked :: i in t.grants && t.grants[i] == s.grants[i])
    && (forall i | i in s.shares && !Live(s.shares[i]) :: i in t.shares && t.shares[i] == s.shares[i])
    && (forall i | i in s.transfers && s.transfers[i].status in {Completed, Rejected} :: i in t.transfers && t.transfers[i] == s.transfers[i])
    && (forall i | i in s.assignments && !s.assignments[i].active :: i in t.assignments && t.assignments[i] == s.assignments[i])
  }

  lemma StepKeepsEnded(s: State, op: Op, t: State)
    requires t == After(s, op)
    ensures KeepsEnded(s, t)
  {
    forall i | i in s.links && s.links[i].status == LinkRevoked ensures i in t.links && t.links[i] == s.links[i] {
      LinkMoves(s, op, t, i);
    }
    forall i | i in s.grants && s.grants[i].status == GrantRevoked ensures i in t.grants && t.grants[i] == s.grants[i] {
      GrantMoves(s, op, t, i);
    }
    forall i | i in s.shares && !Live(s.shares[i]) ensures i in t.shares && t.shares[i] == s.shares[i] {
      ShareMoves(s, op, t, i);
    }
    forall i | i in s.transfers && s.transfers[i].status in {Completed, Rejected} ensures i in t.transfers && t.transfers[i] == s.transfers[i] {
      TransferMoves(s, op, t, i);
    }
    forall i | i in s.assignments && !s.assignments[i].active ensures i in t.assignments && t.assignments[i] == s.assignments[i] {
      AssignmentMoves(s, op, t, i);
    }
  }

  /** No run revives a revoked link, grant or share, a rejected share or transfer, a completed transfer or an ended assignment. */
  lemma {:induction false} EndedIsFinal(s: State, ops: seq<Op>)
    ensures KeepsEnded(s, Run(s, ops))
    decreases |ops|
  {
    if ops != [] {
      EndedIsFinal(s, ops[..|ops| - 1]);
      StepKeepsEnded(Run(s, ops[..|ops| - 1]), ops[|ops| - 1], Run(s, ops));
    }
  }

  /** Once a link is revoked, that ordered pair of workspaces is never linked again, by any run. */
  lemma RevokedPairIsNeverLinked(s: State, ops: seq<Op>, id: Id)
    requires Inv(s) && id in s.links && s.links[id].status == LinkRevoked
    ensures !ActiveLink(Run(s, ops), s.links[id].source, s.links[id].target)
  {
    EndedIsFinal(s, ops);
    RunKeepsInvariant(s, ops);
    OnlyLink(Run(s, ops).links, id);
  }

  lemma OnlyLink(links: map<Id, Link>, id: Id)
    requires LinksOk(links) && id in links
    ensures forall j | j in links && links[j].source == links[id].source && links[j].target == links[id].target :: j == id
  {
  }

  // Approvals were given by those who may

  /** A place where an approval is recorded. */
  datatype Approval =
    | LinkSource(i: Id)
    | LinkTarget(i: Id)
    | ShareOwner(i: Id)
    | ShareRecipient(i: Id)
    | GrantTarget(i: Id)
    | TransferSource(i: Id)
    | TransferTarget(i: Id)

  function Approver(s: State, a: Approval): Option<Id> {
    match a
    case LinkSource(i) => if i in s.links then s.links[i].sourceApproved else None
    case LinkTarget(i) => if i in s.links then s.links[i].targetApproved else None
    case ShareOwner(i) => if i in s.shares then Some(s.shares[i].ownerApproved) else None
    case ShareRecipient(i) => if i in s.shares then s.shares[i].recipientApproved else None
    case GrantTarget(i) => if i in s.grants then s.grants[i].acceptedBy else None
    case TransferSource(i) => if i in s.transfers then s.transfers[i].sourceApproved else None
    case TransferTarget(i) => if i in s.transfers then s.transfers[i].targetApproved else None
  }

  /** The workspace the approval speaks for. */
  function Side(s: State, a: Approval): Option<Id> {
    match a
    case LinkSource(i) => if i in s.links then Some(s.links[i].source) else None
    case LinkTarget(i) => if i in s.links then Some(s.links[i].target) else None
    case ShareOwner(i) => if i in s.shares then Some(s.shares[i].owner) else None
    case ShareRecipient(i) => if i in s.shares then Some(s.shares[i].recipient) else None
    case GrantTarget(i) => if i in s.grants then Some(s.grants[i].target) else None
    case TransferSource(i) => if i in s.transfers then Some(s.transfers[i].source) else None
    case TransferTarget(i) => if i in s.transfers then Some(s.transfers[i].target) else None
  }

  /** Shares need an owner, everything else an admin. */
  predicate MayApprove(s: State, a: Approval, workspace: Id, principal: Id) {
    if a.ShareOwner? || a.ShareRecipient? then IsOwner(s, workspace, principal) else IsAdmin(s, workspace, principal)
  }

  /** This transaction gave the approval that is recorded in `t`, and the caller might give it in `s`. */
  ghost predicate Gives(s: State, t: State, a: Approval) {
    && Approver(t, a).Some? && Side(t, a).Some?
    && Approver(s, a) != Approver(t, a)
    && MayApprove(s, a, Side(t, a).value, Approver(t, a).value)
  }

  lemma NextApproval(s: State, op: Op, t: State, a: Approval)
    requires t == After(s, op) && Approver(t, a).Some?
    ensures Gives(s, t, a) || (Approver(s, a) == Approver(t, a) && Side(s, a) == Side(t, a))
  {
    match a
    case LinkSource(i) => LinkMoves(s, op, t, i);
    case LinkTarget(i) => LinkMoves(s, op, t, i);
    case ShareOwner(i) => ShareMoves(s, op, t, i);
    case ShareRecipient(i) => ShareMoves(s, op, t, i);
    case GrantTarget(i) => GrantMoves(s, op, t, i);
    case TransferSource(i) => TransferMoves(s, op, t, i);
    case TransferTarget(i) => TransferMoves(s, op, t, i);
  }

  /**
   Every approval in a reachable state, on a link, share or transfer or as the acceptance of a
   grant, was given by one transaction of the run, by someone who when it began was an active owner
   (for shares) or an active owner or admin (for the rest) of the workspace it speaks for.
   */
  lemma {:induction false} ApprovalsAreAuthorized(ops: seq<Op>, a: Approval) returns (k: nat)
    requires Approver(Run(EMPTY, ops), a).Some?
    ensures k < |ops| && Gives(Run(EMPTY, ops[..k]), Run(EMPTY, ops[..k + 1]), a)
    ensures Approver(Run(EMPTY, ops[..k + 1]), a) == Approver(Run(EMPTY, ops), a)
    ensures Side(Run(EMPTY, ops[..k + 1]), a) == Side(Run(EMPTY, ops), a)
    decreases |ops|
  {
    var last := |ops| - 1;
    var s, t := Run(EMPTY, ops[..last]), Run(EMPTY, ops);
    NextApproval(s, ops[last], t, a);
    if Gives(s, t, a) {
      k := last;
      assert ops[..last + 1] == ops;
    } else {
      k := ApprovalsAreAuthorized(ops[..last], a);
      assert ops[..last][..k] == ops[..k] && ops[..last][..k + 1] == ops[..k + 1];
    }
  }

  // Assignments that outlive their grant

  /** An assignment still active on a grant that is revoked. */
  ghost predicate Orphan(s: State, a: Id) {
    && a in s.assignments && s.assignments[a].active && s.assignments[a].grant in s.grants
    && s.grants[s.assignments[a].grant].status == GrantRevoked
  }

  /** Exactly which assignments deleting a link leaves behind: those on its live grants. */
  lemma DeleteLinkOrphans(s: State, auth: Auth, id: Id, t: State, a: Id)
    requires Inv(s) && DeleteLinkOutcome(s, auth, id) == Done(t)
    ensures Orphan(t, a) <==> Orphan(s, a) || (a in s.assignments && s.assignments[a].active && s.grants[s.assignments[a].grant].link == id)
  {
  }

  /** No other transaction leaves any. */
  lemma OnlyDeleteLinkOrphans(s: State, op: Op, a: Id, t: State)
    requires Inv(s) && !(op.OnLinks? && op.l.DeleteLink?) && t == After(s, op) && Orphan(t, a)
    ensures Orphan(s, a)
  {
    AssignmentMoves(s, op, t, a);
    if a in s.assignments {
      GrantMoves(s, op, t, s.assignments[a].grant);
    } else {
      GrantMoves(s, op, t, t.assignments[a].grant);
    }
    if op.OnGrants? {
      GrantLeavesNoOrphans(s, op.g, t, a);
    } else if op.OnLinks? {
      LinkFrame(s, op.l, t);
    }
  }

  lemma GrantLeavesNoOrphans(s: State, op: GrantOp, t: State, a: Id)
    requires AssignmentsOk(s) && t == Ended(s, PerformGrant(s, op)) && Orphan(t, a)
    ensures Orphan(s, a)
  {
  }

  // A run that leaves one

  lemma RunThen(s: State, ops: seq<Op>, op: Op)
    ensures Run(s, ops + [op]) == After(Run(s, ops), op)
  {
    assert (ops + [op])[..|ops|] == ops;
  }

  const ANN := Auth("ann", "north", {})
  const BEN := Auth("ben", "south", {})
  const LINK := Link("north", "south", Some("ann"), Some("ben"), LinkActive)
  const GRANT := Grant("link", "northern", "south", Some("ben"), GrantActive)

  /** Two workspaces and an active link between them. */
  const TWO_LINKED :=
    State({"north", "south"}, map["northern" := "north", "southern" := "south"],
          map[("north", "ann") := Membership(Owner, true), ("south", "ben") := Membership(Owner, true)],
          map["link" := LINK], map[], map[], map[], map[])

  const ASSIGNED := TWO_LINKED.(grants := map["grant" := GRANT], assignments := map["assignment" := Assignment("grant", true)])

  lemma LinkedRun() returns (ops: seq<Op>)
    ensures Run(EMPTY, ops) == TWO_LINKED
  {
    var s1 := EMPTY.(workspaces := {"north"}, projects := map["northern" := "north"], members := map[("north", "ann") := Membership(Owner, true)]);
    var s2 := TWO_LINKED.(links := map[]);
    var s3 := TWO_LINKED.(links := map["link" := Link("north", "south", Some("ann"), None, LinkPending)]);
    var op1 := OnMembers(CreateWorkspace("ann", "north", "northern"));
    var op2 := OnMembers(CreateWorkspace("ben", "south", "southern"));
    var op3 := OnLinks(CreateLink(ANN, "link", "north", "south"));
    var op4 := OnLinks(ApproveLink(BEN, "link"));
    ops := [];
    RunThen(EMPTY, ops, op1);
    assert After(EMPTY, op1) == s1;
    ops := ops + [op1];
    RunThen(EMPTY, ops, op2);
    assert After(s1, op2) == s2;
    ops := ops + [op2];
    RunThen(EMPTY, ops, op3);
    assert After(s2, op3) == s3;
    ops := ops + [op3];
    RunThen(EMPTY, ops, op4);
    assert After(s3, op4) == TWO_LINKED;
    ops := ops + [op4];
  }

  lemma AssignedRun() returns (ops: seq<Op>)
    ensures Run(EMPTY, ops) == ASSIGNED
  {
    var s1 := TWO_LINKED.(grants := map["grant" := Grant("link", "northern", "south", None, GrantPending)]);
    var s2 := TWO_LINKED.(grants := map["grant" := GRANT]);
    var op1 := OnGrants(CreateGrant(ANN, "grant", "link", "northern"));
    var op2 := OnGrants(AcceptGrant(BEN, "grant"));
    var op3 := OnGrants(CreateAssignment(BEN, "assignment", "grant", Some("ben")));
    ops := LinkedRun();
    RunThen(EMPTY, ops, op1);
    assert After(TWO_LINKED, op1) == s1;
    ops := ops + [op1];
    RunThen(EMPTY, ops, op2);
    assert After(s1, op2) == s2;
    ops := ops + [op2];
    RunThen(EMPTY, ops, op3);
    assert After(s2, op3) == ASSIGNED;
    ops := ops + [op3];
  }

  /**
   From an empty control plane: two workspaces are linked, a project is granted and assigned, and
   deleting the link leaves that assignment active on the revoked grant.
   */
  lemma DeletedLinkLeavesAssignment() returns (ops: seq<Op>, op: Op)
    ensures op.OnLinks? && op.l.DeleteLink?
    ensures ActiveLink(Run(EMPTY, ops), "north", "south") && !Orphan(Run(EMPTY, ops), "assignment")
    ensures !ActiveLink(Run(EMPTY, ops + [op]), "north", "south") && Orphan(Run(EMPTY, ops + [op]), "assignment")
  {
    ops := AssignedRun();
    op := OnLinks(DeleteLink(ANN, "link"));
    RunThen(EMPTY, ops, op);
    assert "link" in ASSIGNED.links;
    RunKeepsInvariant(EMPTY, ops);
    DeletionOrphans(After(ASSIGNED, op));
  }

  lemma DeletionOrphans(t: State)
    requires Inv(ASSIGNED) && t == After(ASSIGNED, OnLinks(DeleteLink(ANN, "link")))
    ensures !ActiveLink(t, "north", "south") && Orphan(t, "assignment")
  {
    assert "link" in ASSIGNED.links;
    assert DeleteLinkOutcome(ASSIGNED, ANN, "link").Done?;
    DeleteLinkOrphans(ASSIGNED, ANN, "link", t, "assignment");
  }
}
