/** Role-based access: which grants a user has, and what they permit. */
module Rbac {
  import opened Wrappers

  datatype User = GithubUser(username: string)

  datatype Grant = NoGrant | ReadOnly | ApplyIfApprovedBy(role: string) | Apply {
    /** The derived order of the variants. */
    function Level(): nat {
      match this case NoGrant => 0 case ReadOnly => 1 case ApplyIfApprovedBy(_) => 2 case Apply => 3
    }
  }

  datatype PrefixGrant = PrefixGrant(grant: Grant, connectors: Option<seq<string>>)

  datatype Role = Role(users: seq<User>, prefixes: map<string, PrefixGrant>)

  datatype Config = Config(roles: map<string, Role>)

  // ------------------------------------------------------------ what is meant

  /** Some role of the user grants this in the prefix. */
  ghost predicate HasGrant(c: Config, user: User, prefix: string, g: PrefixGrant) {
    exists name :: name in c.roles && user in c.roles[name].users && prefix in c.roles[name].prefixes && c.roles[name].prefixes[prefix] == g
  }

  /** A grant without a list of connectors covers none. */
  predicate Covers(g: PrefixGrant, connector: string) {
    g.connectors.Some? && connector in g.connectors.value
  }

  ghost predicate CanRead(c: Config, user: User, prefix: string, connector: string) {
    exists g :: HasGrant(c, user, prefix, g) && !g.grant.NoGrant? && Covers(g, connector)
  }

  ghost predicate CanApply(c: Config, user: User, prefix: string, connector: string) {
    exists g :: HasGrant(c, user, prefix, g) && g.grant.Apply? && Covers(g, connector)
  }

  ghost predicate CanApplyWithApproval(c: Config, user: User, prefix: string, connector: string) {
    exists g :: HasGrant(c, user, prefix, g) && g.grant.ApplyIfApprovedBy? && Covers(g, connector)
  }

  /** The grant names an existing role, and one of the approvers is among its users. */
  ghost predicate Approved(c: Config, g: PrefixGrant, approvers: seq<User>) {
    g.grant.ApplyIfApprovedBy? && g.grant.role in c.roles && exists u :: u in approvers && u in c.roles[g.grant.role].users
  }

  /** Here a grant without a list of connectors does cover them all. */
  ghost predicate CanApplyApproved(c: Config, user: User, prefix: string, connector: string, approvers: seq<User>) {
    exists g :: HasGrant(c, user, prefix, g) && Approved(c, g, approvers) && (g.connectors.Some? ==> Covers(g, connector))
  }

  // ----------------------------------------------------------------- the checks

  /** Roles are visited in any order; a user listed twice in a role yields it twice. */
  method RolesForUser(c: Config, user: User) returns (res: seq<Role>)
    ensures forall r :: r in res <==> exists name :: name in c.roles && c.roles[name] == r && user in r.users
  {
    res := [];
    var todo := c.roles;
    while todo != map[]
      invariant forall name :: name in todo ==> name in c.roles && todo[name] == c.roles[name]
      invariant forall r :: r in res <==> exists name :: name in c.roles && name !in todo && c.roles[name] == r && user in r.users
      decreases todo.Keys
    {
      var name :| name in todo;
      var role := todo[name];
      ghost var before, todo' := res, todo;
      todo := todo - {name};
      for i := 0 to |role.users|
        invariant forall r :: r in res <==> r in before || (r == role && user in role.users[..i])
      {
        assert role.users[..i + 1] == role.users[..i] + [role.users[i]];
        if role.users[i] == user {
          res := res + [role];
        }
      }
      assert role.users[..|role.users|] == role.users;
      forall r ensures r in res <==> exists n :: n in c.roles && n !in todo && c.roles[n] == r && user in r.users {
        if r == role && user in role.users {
          assert name in c.roles && name !in todo && c.roles[name] == r;
        }
        if n :| n in c.roles && n !in todo && c.roles[n] == r && user in r.users {
          assert n == name || n !in todo';
        }
      }
    }
  }

  method GrantsForPrefix(c: Config, user: User, prefix: string) returns (res: seq<PrefixGrant>)
    ensures forall g :: g in res <==> HasGrant(c, user, prefix, g)
  {
    var roles := RolesForUser(c, user);
    res := [];
    for i := 0 to |roles|
      invariant forall g :: g in res <==> exists r :: r in roles[..i] && prefix in r.prefixes && r.prefixes[prefix] == g
    {
      assert roles[..i + 1] == roles[..i] + [roles[i]];
      if prefix in roles[i].prefixes {
        res := res + [roles[i].prefixes[prefix]];
      }
    }
    assert roles[..|roles|] == roles;
    forall g ensures g in res <==> HasGrant(c, user, prefix, g) {
      if g in res {
        var r :| r in roles && prefix in r.prefixes && r.prefixes[prefix] == g;
        var name :| name in c.roles && c.roles[name] == r && user in r.users;
      }
      if HasGrant(c, user, prefix, g) {
        var name :| name in c.roles && user in c.roles[name].users && prefix in c.roles[name].prefixes && c.roles[name].prefixes[prefix] == g;
        assert c.roles[name] in roles;
      }
    }
  }

  method AllowsRead(c: Config, user: User, prefix: string, connector: string) returns (ok: bool)
    ensures ok <==> CanRead(c, user, prefix, connector)
  {
    var grants := GrantsForPrefix(c, user, prefix);
    for i := 0 to |grants|
      invariant forall g :: g in grants[..i] ==> g.grant.NoGrant? || !Covers(g, connector)
    {
      assert grants[..i + 1] == grants[..i] + [grants[i]];
      if grants[i].grant.Level() >= ReadOnly.Level() && grants[i].connectors.Some? && connector in grants[i].connectors.value {
        assert HasGrant(c, user, prefix, grants[i]);
        return true;
      }
    }
    assert grants[..|grants|] == grants;
    ok := false;
  }

  method AllowsApplyWithoutApproval(c: Config, user: User, prefix: string, connector: string) returns (ok: bool)
    ensures ok <==> CanApply(c, user, prefix, connector)
  {
    var grants := GrantsForPrefix(c, user, prefix);
    for i := 0 to |grants|
      invariant forall g :: g in grants[..i] ==> !g.grant.Apply? || !Covers(g, connector)
    {
      assert grants[..i + 1] == grants[..i] + [grants[i]];
      if grants[i].grant == Apply && grants[i].connectors.Some? && connector in grants[i].connectors.value {
        assert HasGrant(c, user, prefix, grants[i]);
        return true;
      }
    }
    assert grants[..|grants|] == grants;
    ok := false;
  }

  method AllowsApplyWithApproval(c: Config, user: User, prefix: string, connector: string) returns (ok: bool)
    ensures ok <==> CanApplyWithApproval(c, user, prefix, connector)
  {
    var grants := GrantsForPrefix(c, user, prefix);
    for i := 0 to |grants|
      invariant forall g :: g in grants[..i] ==> !g.grant.ApplyIfApprovedBy? || !Covers(g, connector)
    {
      assert grants[..i + 1] == grants[..i] + [grants[i]];
      if grants[i].grant.ApplyIfApprovedBy? && grants[i].connectors.Some? && connector in grants[i].connectors.value {
        assert HasGrant(c, user, prefix, grants[i]);
        return true;
      }
    }
    assert grants[..|grants|] == grants;
    ok := false;
  }

  /** Whether one of the approvers assumes the role the grant names.  The code looks for a
      role of the approver that equals the named one in every field; as equal roles have
      equal users, that comes to the same. */
  method ApproverHasRole(c: Config, g: PrefixGrant, approvers: seq<User>) returns (ok: bool)
    requires g.grant.ApplyIfApprovedBy?
    ensures ok <==> Approved(c, g, approvers)
  {
    var role := g.grant.role;
    for i := 0 to |approvers|
      invariant forall u :: u in approvers[..i] ==> role !in c.roles || u !in c.roles[role].users
    {
      assert approvers[..i + 1] == approvers[..i] + [approvers[i]];
      var roles := RolesForUser(c, approvers[i]);
      for j := 0 to |roles|
        invariant forall r :: r in roles[..j] ==> role !in c.roles || c.roles[role] != r
      {
        assert roles[..j + 1] == roles[..j] + [roles[j]];
        if role in c.roles && c.roles[role] == roles[j] {
          assert roles[j] in roles && approvers[i] in approvers;
          return true;
        }
      }
      assert roles[..|roles|] == roles;
    }
    assert approvers[..|approvers|] == approvers;
    ok := false;
  }

  method AllowsApplyIfApprovedBy(c: Config, user: User, prefix: string, connector: string, approvers: seq<User>) returns (ok: bool)
    ensures ok <==> CanApplyApproved(c, user, prefix, connector, approvers)
  {
    var grants := GrantsForPrefix(c, user, prefix);
    for i := 0 to |grants|
      invariant forall g :: g in grants[..i] ==> !Approved(c, g, approvers) || (g.connectors.Some? && !Covers(g, connector))
    {
      assert grants[..i + 1] == grants[..i] + [grants[i]];
      if grants[i].grant.ApplyIfApprovedBy? {
        var has := ApproverHasRole(c, grants[i], approvers);
        if has && (grants[i].connectors.None? || connector in grants[i].connectors.value) {
          assert HasGrant(c, user, prefix, grants[i]);
          return true;
        }
      }
    }
    assert grants[..|grants|] == grants;
    ok := false;
  }

  // ------------------------------------------------------------------ relations

  /** The server's gate for one connector of one prefix. */
  ghost predicate Permitted(c: Config, user: User, prefix: string, connector: string, approvers: seq<User>) {
    CanApply(c, user, prefix, connector)
    || (CanApplyWithApproval(c, user, prefix, connector) && CanApplyApproved(c, user, prefix, connector, approvers))
  }

  /** Who may apply may also plan. */
  lemma ApplyImpliesRead(c: Config, user: User, prefix: string, connector: string, approvers: seq<User>)
    requires Permitted(c, user, prefix, connector, approvers)
    ensures CanRead(c, user, prefix, connector)
  {
    if CanApply(c, user, prefix, connector) {
      var g :| HasGrant(c, user, prefix, g) && g.grant.Apply? && Covers(g, connector);
    } else {
      var g :| HasGrant(c, user, prefix, g) && g.grant.ApplyIfApprovedBy? && Covers(g, connector);
    }
  }

  /** More approvers never take a permission away. */
  lemma ApprovalIsMonotone(c: Config, user: User, prefix: string, connector: string, approvers: seq<User>, more: seq<User>)
    requires Permitted(c, user, prefix, connector, approvers) && forall u :: u in approvers ==> u in more
    ensures Permitted(c, user, prefix, connector, more)
  {
    if !CanApply(c, user, prefix, connector) {
      var g :| HasGrant(c, user, prefix, g) && Approved(c, g, approvers) && (g.connectors.Some? ==> Covers(g, connector));
      assert Approved(c, g, more);
    }
  }

  // -------------------------------------------------------- own approval

  /** Some grant of the user that asks for approval in this place is satisfied by the user's
      own: the role it names lists the user. */
  ghost predicate ApprovesSelf(c: Config, user: User, prefix: string, connector: string) {
    exists g :: HasGrant(c, user, prefix, g) && g.grant.ApplyIfApprovedBy? && (g.connectors.Some? ==> Covers(g, connector))
                && g.grant.role in c.roles && user in c.roles[g.grant.role].users
  }

  /** What the documentation asks for: one of those who approved is somebody else, whose
      approval is enough. */
  ghost predicate ApprovedByOther(c: Config, user: User, prefix: string, connector: string, approvers: seq<User>) {
    exists a :: a in approvers && a != user && CanApplyApproved(c, user, prefix, connector, [a])
  }

  /** An approval is always one of a single approver. */
  lemma ApprovedByOne(c: Config, user: User, prefix: string, connector: string, approvers: seq<User>) returns (a: User)
    requires CanApplyApproved(c, user, prefix, connector, approvers)
    ensures a in approvers && CanApplyApproved(c, user, prefix, connector, [a])
  {
    var g :| HasGrant(c, user, prefix, g) && Approved(c, g, approvers) && (g.connectors.Some? ==> Covers(g, connector));
    a :| a in approvers && a in c.roles[g.grant.role].users;
    assert a in [a];
    assert Approved(c, g, [a]);
  }

  /** Whatever approvals there are, one that is accepted includes somebody else's, if and
      only if the user holds no grant that names a role of the user's own. */
  lemma ApprovedByOtherIff(c: Config, user: User, prefix: string, connector: string)
    ensures (forall approvers :: CanApplyApproved(c, user, prefix, connector, approvers) ==>
               ApprovedByOther(c, user, prefix, connector, approvers))
       <==> !ApprovesSelf(c, user, prefix, connector)
  {
    if ApprovesSelf(c, user, prefix, connector) {
      SelfApprovalAccepted(c, user, prefix, connector);
    } else {
      forall approvers | CanApplyApproved(c, user, prefix, connector, approvers)
        ensures ApprovedByOther(c, user, prefix, connector, approvers)
      {
        var a := ApprovedByOne(c, user, prefix, connector, approvers);
        var g :| HasGrant(c, user, prefix, g) && Approved(c, g, [a]) && (g.connectors.Some? ==> Covers(g, connector));
        assert a != user;
      }
    }
  }

  lemma SelfApprovalAccepted(c: Config, user: User, prefix: string, connector: string)
    requires ApprovesSelf(c, user, prefix, connector)
    ensures CanApplyApproved(c, user, prefix, connector, [user]) && !ApprovedByOther(c, user, prefix, connector, [user])
  {
    var g :| HasGrant(c, user, prefix, g) && g.grant.ApplyIfApprovedBy? && (g.connectors.Some? ==> Covers(g, connector))
             && g.grant.role in c.roles && user in c.roles[g.grant.role].users;
    assert user in [user];
    assert Approved(c, g, [user]);
  }

  // ---------------------------------------------- grants without connectors

  /** As documented: a grant is limited only if it lists connectors. */
  predicate CoversAsDocumented(g: PrefixGrant, connector: string) {
    g.connectors.Some? ==> Covers(g, connector)
  }

  /** A grant of this kind covers the connector: as the checks see it, or as the
      documentation has it. */
  ghost predicate Reaches(c: Config, user: User, prefix: string, connector: string, kind: Grant -> bool) {
    exists g :: HasGrant(c, user, prefix, g) && kind(g.grant) && Covers(g, connector)
  }

  ghost predicate ReachesAsDocumented(c: Config, user: User, prefix: string, connector: string, kind: Grant -> bool) {
    exists g :: HasGrant(c, user, prefix, g) && kind(g.grant) && CoversAsDocumented(g, connector)
  }

  ghost predicate HasUnlisted(c: Config, user: User, prefix: string, kind: Grant -> bool) {
    exists g :: HasGrant(c, user, prefix, g) && kind(g.grant) && g.connectors.None?
  }

  /** All connectors any grant in the prefix lists. */
  ghost function Listed(c: Config, prefix: string): set<string> {
    set name, i | name in c.roles && prefix in c.roles[name].prefixes && c.roles[name].prefixes[prefix].connectors.Some?
                  && 0 <= i < |c.roles[name].prefixes[prefix].connectors.value|
      :: c.roles[name].prefixes[prefix].connectors.value[i]
  }

  lemma {:induction false} LongerThanAll(names: set<string>) returns (x: string)
    ensures forall n :: n in names ==> |n| < |x|
  {
    if names == {} {
      x := "";
    } else {
      var n :| n in names;
      var y := LongerThanAll(names - {n});
      x := y + n + "x";
      assert forall m :: m in names ==> m == n || m in names - {n};
    }
  }

  /** For whichever kind of grant: code and documentation agree on all connectors if and only
      if the user has no grant of that kind without a list of connectors. */
  lemma KindListedIff(c: Config, user: User, prefix: string, kind: Grant -> bool)
    ensures (forall connector :: Reaches(c, user, prefix, connector, kind) <==> ReachesAsDocumented(c, user, prefix, connector, kind))
       <==> !HasUnlisted(c, user, prefix, kind)
  {
    if HasUnlisted(c, user, prefix, kind) {
      var g :| HasGrant(c, user, prefix, g) && kind(g.grant) && g.connectors.None?;
      var x := LongerThanAll(Listed(c, prefix));
      assert CoversAsDocumented(g, x);
      NotListed(c, user, prefix, x, kind);
    } else {
      forall connector
        ensures Reaches(c, user, prefix, connector, kind) <==> ReachesAsDocumented(c, user, prefix, connector, kind)
      {
        if g :| HasGrant(c, user, prefix, g) && kind(g.grant) && CoversAsDocumented(g, connector) {
          assert g.connectors.Some?;
        }
      }
    }
  }

  lemma NotListed(c: Config, user: User, prefix: string, x: string, kind: Grant -> bool)
    requires x !in Listed(c, prefix)
    ensures !Reaches(c, user, prefix, x, kind)
  {}

  ghost predicate ReadAsDocumented(c: Config, user: User, prefix: string, connector: string) {
    exists g :: HasGrant(c, user, prefix, g) && !g.grant.NoGrant? && CoversAsDocumented(g, connector)
  }

  ghost predicate ApplyAsDocumented(c: Config, user: User, prefix: string, connector: string) {
    exists g :: HasGrant(c, user, prefix, g) && g.grant.Apply? && CoversAsDocumented(g, connector)
  }

  ghost predicate WithApprovalAsDocumented(c: Config, user: User, prefix: string, connector: string) {
    exists g :: HasGrant(c, user, prefix, g) && g.grant.ApplyIfApprovedBy? && CoversAsDocumented(g, connector)
  }

  lemma ReadListedIff(c: Config, user: User, prefix: string)
    ensures (forall connector :: CanRead(c, user, prefix, connector) <==> ReadAsDocumented(c, user, prefix, connector))
       <==> !(exists g :: HasGrant(c, user, prefix, g) && !g.grant.NoGrant? && g.connectors.None?)
  {
    var kind := (g: Grant) => !g.NoGrant?;
    KindListedIff(c, user, prefix, kind);
    forall connector
      ensures CanRead(c, user, prefix, connector) <==> Reaches(c, user, prefix, connector, kind)
      ensures ReadAsDocumented(c, user, prefix, connector) <==> ReachesAsDocumented(c, user, prefix, connector, kind)
    {}
  }

  lemma ApplyListedIff(c: Config, user: User, prefix: string)
    ensures (forall connector :: CanApply(c, user, prefix, connector) <==> ApplyAsDocumented(c, user, prefix, connector))
       <==> !(exists g :: HasGrant(c, user, prefix, g) && g.grant.Apply? && g.connectors.None?)
  {
    var kind := (g: Grant) => g.Apply?;
    KindListedIff(c, user, prefix, kind);
    forall connector
      ensures CanApply(c, user, prefix, connector) <==> Reaches(c, user, prefix, connector, kind)
      ensures ApplyAsDocumented(c, user, prefix, connector) <==> ReachesAsDocumented(c, user, prefix, connector, kind)
    {}
  }

  lemma WithApprovalListedIff(c: Config, user: User, prefix: string)
    ensures (forall connector :: CanApplyWithApproval(c, user, prefix, connector) <==> WithApprovalAsDocumented(c, user, prefix, connector))
       <==> !(exists g :: HasGrant(c, user, prefix, g) && g.grant.ApplyIfApprovedBy? && g.connectors.None?)
  {
    var kind := (g: Grant) => g.ApplyIfApprovedBy?;
    KindListedIff(c, user, prefix, kind);
    forall connector
      ensures CanApplyWithApproval(c, user, prefix, connector) <==> Reaches(c, user, prefix, connector, kind)
      ensures WithApprovalAsDocumented(c, user, prefix, connector) <==> ReachesAsDocumented(c, user, prefix, connector, kind)
    {}
  }

  /** Each of the three checks agrees with the documentation on all connectors if and only if
      the user has no grant of its kind without a list of connectors. */
  lemma ListedIff(c: Config, user: User, prefix: string)
    ensures (forall connector :: CanRead(c, user, prefix, connector) <==> ReadAsDocumented(c, user, prefix, connector))
       <==> !(exists g :: HasGrant(c, user, prefix, g) && !g.grant.NoGrant? && g.connectors.None?)
    ensures (forall connector :: CanApply(c, user, prefix, connector) <==> ApplyAsDocumented(c, user, prefix, connector))
       <==> !(exists g :: HasGrant(c, user, prefix, g) && g.grant.Apply? && g.connectors.None?)
    ensures (forall connector :: CanApplyWithApproval(c, user, prefix, connector) <==> WithApprovalAsDocumented(c, user, prefix, connector))
       <==> !(exists g :: HasGrant(c, user, prefix, g) && g.grant.ApplyIfApprovedBy? && g.connectors.None?)
  {
    ReadListedIff(c, user, prefix);
    ApplyListedIff(c, user, prefix);
    WithApprovalListedIff(c, user, prefix);
  }

  /** The gate as documented: some grant of the user that covers the connector, or lists
      none, allows to apply at once or with the approvals there are. */
  ghost predicate PermittedAsDocumented(c: Config, user: User, prefix: string, connector: string, approvers: seq<User>) {
    exists g :: HasGrant(c, user, prefix, g) && Allows(c, g, approvers) && CoversAsDocumented(g, connector)
  }

  ghost predicate Allows(c: Config, g: PrefixGrant, approvers: seq<User>) {
    g.grant.Apply? || Approved(c, g, approvers)
  }

  lemma GateNeedsListed(c: Config, user: User, prefix: string, connector: string, approvers: seq<User>)
    requires connector !in Listed(c, prefix)
    ensures !Permitted(c, user, prefix, connector, approvers)
  {
    NotListed(c, user, prefix, connector, (g: Grant) => true);
  }

  /** The server's gate agrees with the documentation on all connectors if and only if no
      grant of the user that would let the user apply lists no connectors. */
  lemma GateAgreesIff(c: Config, user: User, prefix: string, approvers: seq<User>)
    ensures (forall connector :: Permitted(c, user, prefix, connector, approvers) <==>
               PermittedAsDocumented(c, user, prefix, connector, approvers))
       <==> !(exists g :: HasGrant(c, user, prefix, g) && Allows(c, g, approvers) && g.connectors.None?)
  {
    if g :| HasGrant(c, user, prefix, g) && Allows(c, g, approvers) && g.connectors.None? {
      var x := LongerThanAll(Listed(c, prefix));
      GateNeedsListed(c, user, prefix, x, approvers);
      assert CoversAsDocumented(g, x);
      assert PermittedAsDocumented(c, user, prefix, x, approvers);
    } else {
      forall connector
        ensures Permitted(c, user, prefix, connector, approvers) <==> PermittedAsDocumented(c, user, prefix, connector, approvers)
      {
        ListedGate(c, user, prefix, connector, approvers);
      }
    }
  }

  lemma ListedGate(c: Config, user: User, prefix: string, connector: string, approvers: seq<User>)
    requires forall g :: HasGrant(c, user, prefix, g) && Allows(c, g, approvers) ==> g.connectors.Some?
    ensures Permitted(c, user, prefix, connector, approvers) <==> PermittedAsDocumented(c, user, prefix, connector, approvers)
  {
    if g :| HasGrant(c, user, prefix, g) && Allows(c, g, approvers) && CoversAsDocumented(g, connector) {
      assert g.connectors.Some?;
    }
    if CanApplyApproved(c, user, prefix, connector, approvers) {
      var g :| HasGrant(c, user, prefix, g) && Approved(c, g, approvers) && (g.connectors.Some? ==> Covers(g, connector));
      assert Allows(c, g, approvers);
    }
    if CanApply(c, user, prefix, connector) {
      var g :| HasGrant(c, user, prefix, g) && g.grant.Apply? && Covers(g, connector);
      assert Allows(c, g, approvers);
    }
  }

  /** A user all of whose grants in the prefix list no connectors passes none of the three
      checks, nor the server's gate, whoever approves; the fourth check can still say yes. */
  lemma UnlistedGrantsOnly(c: Config, user: User, prefix: string, connector: string, approvers: seq<User>)
    requires forall g :: HasGrant(c, user, prefix, g) ==> g.connectors.None?
    ensures !CanRead(c, user, prefix, connector) && !CanApply(c, user, prefix, connector)
    ensures !CanApplyWithApproval(c, user, prefix, connector) && !Permitted(c, user, prefix, connector, approvers)
    ensures CanApplyApproved(c, user, prefix, connector, approvers)
       <==> exists g :: HasGrant(c, user, prefix, g) && Approved(c, g, approvers)
  {}
}
