/**
 The control plane: memberships, workspace links and the grants on them, shares and transfers
 (apps/control/neuromem_control/services.py:153-172, 325-420, 482-540, 691-1183;
 apps/control/neuromem_control/app.py:1460-1487).

 Every function of the service is one transaction: it commits the state given here or fails with an
 HTTP status and changes nothing. New identifiers are inputs, as are the capabilities of a
 credential and whether an invitation token checks out.
 */
module ControlPlane {
  import opened Wrappers

  type Id = string

  datatype Role = Owner | Admin | Contributor | Viewer

  datatype Membership = Membership(role: Role, active: bool)

  datatype LinkStatus = LinkPending | LinkActive | LinkRevoked

  datatype Link = Link(source: Id, target: Id, sourceApproved: Option<Id>, targetApproved: Option<Id>, status: LinkStatus)

  datatype GrantStatus = GrantPending | GrantActive | GrantRevoked

  datatype Grant = Grant(link: Id, project: Id, target: Id, acceptedBy: Option<Id>, status: GrantStatus)

  datatype Assignment = Assignment(grant: Id, active: bool)

  datatype ShareStatus = ShareProposed | ShareActive | ShareRejected | ShareRevoked

  datatype Share = Share(owner: Id, recipient: Id, ownerApproved: Id, recipientApproved: Option<Id>, status: ShareStatus)

  datatype TransferStatus = PendingSource | PendingTarget | Approved | Completed | Rejected

  datatype Transfer = Transfer(source: Id, sourceProject: Id, target: Id, targetProject: Id, record: Id,
                               sourceApproved: Option<Id>, targetApproved: Option<Id>, status: TransferStatus)

  datatype State = State(
    workspaces: set<Id>,
    projects: map<Id, Id>,  // project to workspace
    members: map<(Id, Id), Membership>,  // workspace and principal
    links: map<Id, Link>,
    grants: map<Id, Grant>,
    assignments: map<Id, Assignment>,
    shares: map<Id, Share>,
    transfers: map<Id, Transfer>)

  /** The caller: a principal and the workspace its credential selects. */
  datatype Auth = Auth(principal: Id, workspace: Id, capabilities: set<string>)

  datatype Outcome = Done(state: State) | Fail(code: int)

  // Who may

  predicate IsActive(s: State, workspace: Id, principal: Id) {
    (workspace, principal) in s.members && s.members[(workspace, principal)].active
  }

  predicate IsOwner(s: State, workspace: Id, principal: Id) {
    IsActive(s, workspace, principal) && s.members[(workspace, principal)].role == Owner
  }

  /** require_admin_membership */
  predicate IsAdmin(s: State, workspace: Id, principal: Id) {
    IsActive(s, workspace, principal) && s.members[(workspace, principal)].role in {Owner, Admin}
  }

  function Owners(s: State, workspace: Id): set<Id> {
    set m | m in s.members && m.0 == workspace && IsOwner(s, m.0, m.1) :: m.1
  }

  // Workspaces and memberships

  function CreateWorkspaceOutcome(s: State, principal: Id, workspace: Id, general: Id): Outcome {
    if workspace in s.workspaces || general in s.projects then Fail(409)
    else Done(s.(workspaces := s.workspaces + {workspace}, projects := s.projects[general := workspace],
                 members := s.members[(workspace, principal) := Membership(Owner, true)]))
  }

  predicate RemovesOwner(m: Membership, role: Option<Role>, active: Option<bool>) {
    m.role == Owner && ((role.Some? && role.value != Owner) || active == Some(false))
  }

  function Updated(m: Membership, role: Option<Role>, active: Option<bool>): Membership {
    Membership(if role.Some? then role.value else m.role, if active.Some? then active.value else m.active)
  }

  function UpdateMembershipOutcome(s: State, auth: Auth, principal: Id, role: Option<Role>, active: Option<bool>): Outcome {
    var key := (auth.workspace, principal);
    if key !in s.members then Fail(404)
    else if "workspace.admin" !in auth.capabilities || !IsActive(s, auth.workspace, auth.principal) then Fail(403)
    else if s.members[(auth.workspace, auth.principal)].role != Owner && (s.members[key].role == Owner || role == Some(Owner)) then Fail(403)
    else if RemovesOwner(s.members[key], role, active) && |Owners(s, auth.workspace)| <= 1 then Fail(409)
    else Done(s.(members := s.members[key := Updated(s.members[key], role, active)]))
  }

  /** An invitation that checks out names its workspace and role. */
  function AcceptInvitationOutcome(s: State, invitation: Option<(Id, Role)>, principal: Id): Outcome {
    if invitation.None? then Fail(400)
    else
      var (workspace, role) := invitation.value;
      if workspace !in s.workspaces then Fail(409)
      else if IsActive(s, workspace, principal) then Fail(409)
      else Done(s.(members := s.members[(workspace, principal) := Membership(role, true)]))
  }

  // Shares

  predicate Live(share: Share) {
    share.status == ShareProposed || share.status == ShareActive
  }

  predicate LivePair(s: State, owner: Id, recipient: Id) {
    exists i | i in s.shares :: s.shares[i].owner == owner && s.shares[i].recipient == recipient && Live(s.shares[i])
  }

  function CreateShareOutcome(s: State, auth: Auth, id: Id, recipient: Id): Outcome {
    if "federation.manage" !in auth.capabilities || !IsOwner(s, auth.workspace, auth.principal) then Fail(403)
    else if auth.workspace == recipient then Fail(400)
    else if recipient !in s.workspaces then Fail(404)
    else if LivePair(s, auth.workspace, recipient) || id in s.shares then Fail(409)
    else Done(s.(shares := s.shares[id := Share(auth.workspace, recipient, auth.principal, None, ShareProposed)]))
  }

  function ApproveShareOutcome(s: State, auth: Auth, id: Id): Outcome {
    if id !in s.shares then Fail(404)
    else if s.shares[id].status != ShareProposed then Fail(409)
    else if auth.workspace != s.shares[id].recipient || !IsOwner(s, auth.workspace, auth.principal) then Fail(403)
    else Done(s.(shares := s.shares[id := s.shares[id].(recipientApproved := Some(auth.principal), status := ShareActive)]))
  }

  function RejectShareOutcome(s: State, auth: Auth, id: Id): Outcome {
    if id !in s.shares then Fail(404)
    else if s.shares[id].status != ShareProposed then Fail(409)
    else if auth.workspace != s.shares[id].recipient || !IsOwner(s, auth.workspace, auth.principal) then Fail(403)
    else Done(s.(shares := s.shares[id := s.shares[id].(status := ShareRejected)]))
  }

  function RevokeShareOutcome(s: State, auth: Auth, id: Id): Outcome {
    if id !in s.shares then Fail(404)
    else if !Live(s.shares[id]) then Fail(409)
    else if auth.workspace !in {s.shares[id].owner, s.shares[id].recipient} || !IsOwner(s, auth.workspace, auth.principal) then Fail(403)
    else Done(s.(shares := s.shares[id := s.shares[id].(status := ShareRevoked)]))
  }

  // Links

  predicate Linked(s: State, source: Id, target: Id) {
    exists i | i in s.links :: s.links[i].source == source && s.links[i].target == target
  }

  function ApprovedBy(link: Link, auth: Auth): Link {
    if auth.workspace == link.source then link.(sourceApproved := Some(auth.principal)) else link.(targetApproved := Some(auth.principal))
  }

  function CreateLinkOutcome(s: State, auth: Auth, id: Id, source: Id, target: Id): Outcome {
    if source == target then Fail(400)
    else if auth.workspace !in {source, target} || !IsAdmin(s, auth.workspace, auth.principal) then Fail(403)
    else if source !in s.workspaces || target !in s.workspaces then Fail(404)
    else if Linked(s, source, target) || id in s.links then Fail(409)
    else Done(s.(links := s.links[id := ApprovedBy(Link(source, target, None, None, LinkPending), auth)]))
  }

  function ApproveLinkOutcome(s: State, auth: Auth, id: Id): Outcome {
    if id !in s.links then Fail(404)
    else if s.links[id].status != LinkPending then Fail(409)
    else if auth.workspace !in {s.links[id].source, s.links[id].target} || !IsAdmin(s, auth.workspace, auth.principal) then Fail(403)
    else
      var link := ApprovedBy(s.links[id], auth);
      Done(s.(links := s.links[id := if link.sourceApproved.Some? && link.targetApproved.Some? then link.(status := LinkActive) else link]))
  }

  function RevokedGrants(grants: map<Id, Grant>, link: Id): map<Id, Grant> {
    map g | g in grants ::
      if grants[g].link == link && grants[g].status != GrantRevoked then grants[g].(status := GrantRevoked) else grants[g]
  }

  /** Deleting a link revokes it and its grants, but not the assignments of those. */
  function DeleteLinkOutcome(s: State, auth: Auth, id: Id): Outcome {
    if id !in s.links then Fail(404)
    else if auth.workspace !in {s.links[id].source, s.links[id].target} || !IsAdmin(s, auth.workspace, auth.principal) then Fail(403)
    else Done(s.(links := s.links[id := s.links[id].(status := LinkRevoked)], grants := RevokedGrants(s.grants, id)))
  }

  // Grants

  predicate Granted(s: State, link: Id, project: Id) {
    exists g | g in s.grants :: s.grants[g].link == link && s.grants[g].project == project
  }

  function CreateGrantOutcome(s: State, auth: Auth, id: Id, link: Id, project: Id): Outcome {
    if link !in s.links || project !in s.projects then Fail(404)
    else if s.links[link].status != LinkActive then Fail(409)
    else if auth.workspace != s.links[link].source || !IsAdmin(s, auth.workspace, auth.principal) then Fail(403)
    else if s.projects[project] != s.links[link].source then Fail(400)
    else if Granted(s, link, project) || id in s.grants then Fail(409)
    else Done(s.(grants := s.grants[id := Grant(link, project, s.links[link].target, None, GrantPending)]))
  }

  function AcceptGrantOutcome(s: State, auth: Auth, id: Id): Outcome {
    if id !in s.grants then Fail(404)
    else if s.grants[id].status != GrantPending then Fail(409)
    else if auth.workspace != s.grants[id].target || !IsAdmin(s, auth.workspace, auth.principal) then Fail(403)
    else Done(s.(grants := s.grants[id := s.grants[id].(status := GrantActive, acceptedBy := Some(auth.principal))]))
  }

  function RevokedAssignments(assignments: map<Id, Assignment>, grant: Id): map<Id, Assignment> {
    map a | a in assignments :: if assignments[a].grant == grant then assignments[a].(active := false) else assignments[a]
  }

  function RevokeGrantOutcome(s: State, auth: Auth, id: Id): Outcome {
    if id !in s.grants then Fail(404)
    else if s.grants[id].link !in s.links || auth.workspace !in {s.links[s.grants[id].link].source, s.links[s.grants[id].link].target}
            || !IsAdmin(s, auth.workspace, auth.principal) then Fail(403)
    else Done(s.(grants := s.grants[id := s.grants[id].(status := GrantRevoked)], assignments := RevokedAssignments(s.assignments, id)))
  }

  /** To a principal, or to a role if none is given. */
  function CreateAssignmentOutcome(s: State, auth: Auth, id: Id, grant: Id, principal: Option<Id>): Outcome {
    if grant !in s.grants then Fail(404)
    else if s.grants[grant].status != GrantActive then Fail(409)
    else if auth.workspace != s.grants[grant].target || !IsAdmin(s, auth.workspace, auth.principal) then Fail(403)
    else if principal.Some? && !IsActive(s, auth.workspace, principal.value) then Fail(400)
    else if id in s.assignments then Fail(409)
    else Done(s.(assignments := s.assignments[id := Assignment(grant, true)]))
  }

  // Transfers

  predicate ActiveLink(s: State, source: Id, target: Id) {
    exists i | i in s.links :: s.links[i].source == source && s.links[i].target == target && s.links[i].status == LinkActive
  }

  /** The unique key of a transfer is taken. */
  predicate Requested(s: State, source: Id, sourceProject: Id, targetProject: Id, record: Id) {
    exists i | i in s.transfers :: s.transfers[i].source == source && s.transfers[i].sourceProject == sourceProject
                                   && s.transfers[i].targetProject == targetProject && s.transfers[i].record == record
  }

  function CreateTransferOutcome(s: State, auth: Auth, id: Id, sourceProject: Id, target: Id, targetProject: Id, record: Id): Outcome {
    var source := auth.workspace;
    if auth.capabilities !! {"transfer.manage", "transfer.request"} then Fail(403)
    else if sourceProject !in s.projects || s.projects[sourceProject] != source then Fail(400)
    else if targetProject !in s.projects || s.projects[targetProject] != target then Fail(400)
    else if !ActiveLink(s, source, target) || Requested(s, source, sourceProject, targetProject, record) || id in s.transfers then Fail(409)
    else Done(s.(transfers := s.transfers[id := Transfer(source, sourceProject, target, targetProject, record, None, None, PendingSource)]))
  }

  function ApproveTransferOutcome(s: State, auth: Auth, id: Id): Outcome {
    if id !in s.transfers then Fail(404)
    else
      var t := s.transfers[id];
      match t.status
      case PendingSource =>
        if auth.workspace != t.source || !IsAdmin(s, auth.workspace, auth.principal) then Fail(403)
        else Done(s.(transfers := s.transfers[id := t.(sourceApproved := Some(auth.principal), status := PendingTarget)]))
      case PendingTarget =>
        if auth.workspace != t.target || !IsAdmin(s, auth.workspace, auth.principal) then Fail(403)
        else Done(s.(transfers := s.transfers[id := t.(targetApproved := Some(auth.principal), status := Approved)]))
      case _ => Fail(409)
  }

  function RejectTransferOutcome(s: State, auth: Auth, id: Id): Outcome {
    if id !in s.transfers then Fail(404)
    else
      var t := s.transfers[id];
      if t.status != PendingSource && t.status != PendingTarget then Fail(409)
      else if auth.workspace != (if t.status == PendingSource then t.source else t.target) || !IsAdmin(s, auth.workspace, auth.principal) then Fail(403)
      else Done(s.(transfers := s.transfers[id := t.(status := Rejected)]))
  }

  function CompleteTransferOutcome(s: State, auth: Auth, id: Id): Outcome {
    if id !in s.transfers then Fail(404)
    else if s.transfers[id].status != Approved then Fail(409)
    else if auth.workspace != s.transfers[id].target || !IsAdmin(s, auth.workspace, auth.principal) then Fail(403)
    else Done(s.(transfers := s.transfers[id := s.transfers[id].(status := Completed)]))
  }
}
