/** Authentication, tenant resolution and authorization: the stages between the limiter's
    two passes that decide who acts, where, and whether they may. */
module Guards {
  import opened Wrappers

  datatype Access = Public | AuthenticatedOnly | RequirePermission(permission: string)

  datatype SessionStatus = PendingMfa | Active

  datatype Identity = Identity(id: string, userId: string, status: SessionStatus, activeOrganizationId: Option<string>)

  /** What the session service says about a token. */
  datatype SessionResolution = Resolved(session: Identity) | Unknown | Expired | Revoked

  datatype Principal = Principal(userId: string, sessionId: string)

  datatype MembershipRow = MembershipRow(id: string, isActive: bool, roleKey: string, permissions: seq<string>)

  /** What the database says about a user in an organisation, before any layer judged it. */
  datatype Tenancy = Tenancy(membership: Option<MembershipRow>, organizationIsActive: bool)

  datatype TenantContext =
    TenantContext(organizationId: string, membershipId: string, roleKey: string, permissions: set<string>)

  datatype TenantResolution =
    | ResolvedTenant(context: TenantContext)
    | NoActiveOrganization
    | NotAMember
    | OrganizationSuspended

  datatype ErrorCode =
    | RateLimited | Unauthenticated | SessionExpired | MfaRequired
    | ResourceNotFound | OrganizationIsSuspended | PermissionDenied | GateRefused(gate: string)

  datatype Details = NoDetails | RetryAfter(seconds: Option<nat>) | Denied(required: string, yourRole: string)

  datatype Refusal = Refusal(code: ErrorCode, status: nat, details: Details)

  function ResolveTenant(activeOrganizationId: Option<string>, t: Tenancy): TenantResolution {
    if activeOrganizationId.None? then NoActiveOrganization
    else if t.membership.None? || !t.membership.value.isActive then NotAMember
    else if !t.organizationIsActive then OrganizationSuspended
    else
      var m := t.membership.value;
      ResolvedTenant(TenantContext(activeOrganizationId.value, m.id, m.roleKey, set p | p in m.permissions))
  }

  /** Database keys narrowed to the permissions this product knows. */
  function KnownPermissions(keys: seq<string>, known: set<string>): seq<string> {
    if keys == [] then []
    else (if keys[0] in known then [keys[0]] else []) + KnownPermissions(keys[1..], known)
  }

  datatype IdentityOutcome = Admitted(identity: Identity) | Rejected(refusal: Refusal)

  const UNAUTHENTICATED := Refusal(Unauthenticated, 401, NoDetails)
  const NOT_FOUND := Refusal(ResourceNotFound, 404, NoDetails)
  const SUSPENDED := Refusal(OrganizationIsSuspended, 403, NoDetails)

  function IdentityOf(r: SessionResolution): IdentityOutcome {
    match r
    case Resolved(session) => Admitted(session)
    case Unknown => Rejected(UNAUTHENTICATED)
    case Expired => Rejected(Refusal(SessionExpired, 401, NoDetails))
    case Revoked => Rejected(Refusal(SessionExpired, 401, NoDetails))
  }

  /** The properties the guards write on a request. */
  datatype Written = Written(
    principal: Option<Principal>,
    activeOrganizationId: Option<string>,
    tenant: Option<TenantContext>,
    organizationId: Option<string>)

  const NOTHING_WRITTEN := Written(None, None, None, None)

  datatype Guarded = Guarded(written: Written, refusal: Option<Refusal>)

  function Authenticate(access: Option<Access>, allowsPendingMfa: bool, token: Option<string>, w: Written,
                        s: SessionResolution): Guarded {
    if access == Some(Public) then Guarded(w, None)
    else if token.None? then Guarded(w, Some(UNAUTHENTICATED))
    else match IdentityOf(s)
      case Rejected(refusal) => Guarded(w, Some(refusal))
      case Admitted(i) =>
        if i.status.PendingMfa? && !allowsPendingMfa then Guarded(w, Some(Refusal(MfaRequired, 401, NoDetails)))
        else
          var principal := Principal(i.userId, i.id);
          Guarded(w.(principal := Some(principal), activeOrganizationId := i.activeOrganizationId), None)
  }

  /** Resolves on every authenticated route and refuses only on one that names a permission. */
  function ResolveContext(access: Option<Access>, w: Written, t: Tenancy): Guarded {
    if access == Some(Public) || w.principal.None? then Guarded(w, None)
    else
      var asked := if w.activeOrganizationId.None? then Tenancy(None, false) else t;
      var resolution := ResolveTenant(w.activeOrganizationId, asked);
      if resolution.ResolvedTenant? then
        Guarded(w.(tenant := Some(resolution.context), organizationId := Some(resolution.context.organizationId)), None)
      else if !(access.Some? && access.value.RequirePermission?) then Guarded(w, None)
      else if resolution.OrganizationSuspended? then Guarded(w, Some(SUSPENDED))
      else Guarded(w, Some(NOT_FOUND))
  }

  function Authorize(access: Option<Access>, w: Written): Guarded {
    if !(access.Some? && access.value.RequirePermission?) then Guarded(w, None)
    else if w.tenant.None? then Guarded(w, Some(NOT_FOUND))
    else if access.value.permission in w.tenant.value.permissions then Guarded(w, None)
    else Guarded(w, Some(Refusal(PermissionDenied, 403, Denied(access.value.permission, w.tenant.value.roleKey))))
  }

  /** The request object the guards of one request share and write to. */
  class HttpRequest {
    var principal: Option<Principal>
    var activeOrganizationId: Option<string>
    var tenant: Option<TenantContext>
    var organizationId: Option<string>

    constructor ()
      ensures View() == NOTHING_WRITTEN
    {
      principal, activeOrganizationId, tenant, organizationId := None, None, None, None;
    }

    function View(): Written
      reads this
    {
      Written(principal, activeOrganizationId, tenant, organizationId)
    }

    method AuthenticationGuard(access: Option<Access>, allowsPendingMfa: bool, token: Option<string>,
                               sessions: string -> SessionResolution)
      returns (refusal: Option<Refusal>)
      modifies this
      ensures Guarded(View(), refusal)
           == Authenticate(access, allowsPendingMfa, token, old(View()),
             sessions(if token.Some? then token.value else ""))
    {
      if access == Some(Public) {
        return None;
      }
      if token.None? {
        return Some(UNAUTHENTICATED);
      }
      var outcome := IdentityOf(sessions(token.value));
      if outcome.Rejected? {
        return Some(outcome.refusal);
      }
      var identity := outcome.identity;
      if identity.status.PendingMfa? && !allowsPendingMfa {
        return Some(Refusal(MfaRequired, 401, NoDetails));
      }
      principal := Some(Principal(identity.userId, identity.id));
      activeOrganizationId := identity.activeOrganizationId;
      return None;
    }

    method TenantContextGuard(access: Option<Access>,
                              resolve: (string, string) -> Tenancy) returns (refusal: Option<Refusal>)
      modifies this
      ensures var w := old(View());
        Guarded(View(), refusal) == ResolveContext(access, w,
          if w.principal.Some? && w.activeOrganizationId.Some? then
            resolve(w.principal.value.userId, w.activeOrganizationId.value)
          else Tenancy(None, false))
    {
      if access == Some(Public) {
        return None;
      }
      if principal.None? {
        return None;
      }
      var resolution;
      if activeOrganizationId.None? {
        resolution := ResolveTenant(None, Tenancy(None, false));
      } else {
        resolution := ResolveTenant(activeOrganizationId, resolve(principal.value.userId, activeOrganizationId.value));
      }
      if resolution.ResolvedTenant? {
        tenant := Some(resolution.context);
        organizationId := Some(resolution.context.organizationId);
        return None;
      }
      if !(access.Some? && access.value.RequirePermission?) {
        return None;
      }
      match resolution {
        case NoActiveOrganization => return Some(NOT_FOUND);
        case NotAMember => return Some(NOT_FOUND);
        case OrganizationSuspended => return Some(SUSPENDED);
      }
    }
  }

  // ----- what the two layers decide ------------------------------------------------

  /** Membership is asked before the organisation's state: a suspension is told to active
      members and to nobody else, and a context is built for nobody else either. */
  lemma OnlyActiveMembersLearnMore(org: Option<string>, t: Tenancy)
    ensures var r := ResolveTenant(org, t);
      var active := org.Some? && t.membership.Some? && t.membership.value.isActive;
      && (r.ResolvedTenant? <==> active && t.organizationIsActive)
      && (r.OrganizationSuspended? <==> active && !t.organizationIsActive)
      && (r.ResolvedTenant? ==> r.context.organizationId == org.value)
      && (r.ResolvedTenant? ==> forall p :: p in r.context.permissions <==> p in t.membership.value.permissions)
  {
  }

  /** AUTHENTICATION. A route that is not public is passed exactly with a token whose session is
      resolved, and is active or allowed on this route to be still without its second factor; each
      other case has its own refusal; and what is written is that session's identity. */
  lemma AuthenticatesExactly(access: Option<Access>, allowsPendingMfa: bool, token: Option<string>, w: Written,
                             s: SessionResolution)
    ensures var g := Authenticate(access, allowsPendingMfa, token, w, s);
      if access == Some(Public) then g == Guarded(w, None)
      else
        && (g.refusal == None <==>
             token.Some? && s.Resolved? && (s.session.status == Active || allowsPendingMfa))
        && (g.refusal == Some(Refusal(Unauthenticated, 401, NoDetails)) <==> token == None || s == Unknown)
        && (g.refusal == Some(Refusal(SessionExpired, 401, NoDetails)) <==>
             token != None && (s == Expired || s == Revoked))
        && (g.refusal == Some(Refusal(MfaRequired, 401, NoDetails)) <==>
             token != None && s.Resolved? && s.session.status == PendingMfa && !allowsPendingMfa)
        && (g.refusal != None ==> g.written == w)
        && (g.refusal == None ==>
             && g.written.principal == Some(Principal(s.session.userId, s.session.id))
             && g.written.activeOrganizationId == s.session.activeOrganizationId
             && g.written.tenant == w.tenant && g.written.organizationId == w.organizationId)
  {
  }

  predicate NamesPermission(access: Option<Access>) {
    access.Some? && access.value.RequirePermission?
  }

  /** The database calls the user an active member of the organisation it was asked about. */
  predicate SaysActive(org: Option<string>, t: Tenancy) {
    org.Some? && t.membership.Some? && t.membership.value.isActive
  }

  /** TENANT RESOLUTION. Only a principal on a route that is not public is resolved, and only a
      route that names a permission refuses: with a 403 an active member of a suspended
      organisation, with a 404 who is no active member; a context is written for active members
      of active organisations, on every such route, with the role and the grants of the row. */
  lemma ResolvesExactly(access: Option<Access>, w: Written, t: Tenancy)
    ensures var g := ResolveContext(access, w, t);
      var member := SaysActive(w.activeOrganizationId, t);
      if access == Some(Public) || w.principal == None then g == Guarded(w, None)
      else
        && (g.refusal == None <==> (member && t.organizationIsActive) || !NamesPermission(access))
        && (g.refusal == Some(Refusal(OrganizationIsSuspended, 403, NoDetails)) <==>
             NamesPermission(access) && member && !t.organizationIsActive)
        && (g.refusal == Some(Refusal(ResourceNotFound, 404, NoDetails)) <==> NamesPermission(access) && !member)
        && (!(member && t.organizationIsActive) ==> g.written == w)
        && (member && t.organizationIsActive ==>
             var row, org := t.membership.value, w.activeOrganizationId.value;
             && g.written == w.(tenant := g.written.tenant, organizationId := Some(org))
             && g.written.tenant.Some?
             && g.written.tenant.value.organizationId == org && g.written.tenant.value.membershipId == row.id
             && g.written.tenant.value.roleKey == row.roleKey
             && forall p :: p in g.written.tenant.value.permissions <==> p in row.permissions)
  {
  }

  /** AUTHORIZATION. A route that names a permission is passed exactly with a context that holds
      it; without a context it is not found, and without the permission it is denied, naming the
      permission and the caller's role. */
  lemma AuthorizesExactly(access: Option<Access>, w: Written)
    ensures var g := Authorize(access, w);
      && g.written == w
      && (!NamesPermission(access) ==> g.refusal == None)
      && (NamesPermission(access) ==>
           var p := access.value.permission;
           && (g.refusal == None <==> w.tenant.Some? && p in w.tenant.value.permissions)
           && (g.refusal == Some(Refusal(ResourceNotFound, 404, NoDetails)) <==> w.tenant == None)
           && (w.tenant.Some? && p !in w.tenant.value.permissions ==>
                g.refusal == Some(Refusal(PermissionDenied, 403, Denied(p, w.tenant.value.roleKey)))))
  {
  }

  lemma {:induction false} KnownPermissionsNeverWiden(keys: seq<string>, known: set<string>, p: string)
    ensures p in KnownPermissions(keys, known) <==> p in keys && p in known
  {
    if keys != [] { KnownPermissionsNeverWiden(keys[1..], known, p); }
  }
}
