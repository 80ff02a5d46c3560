/** The access controller: one controller per admin key, role accounts
    derived from the controller and a role name, and member accounts derived
    from a role account and a member key. */
module AccessControl {
  import opened Errors
  import opened Constants
  import opened AccountState

  /** The member accounts recorded under one role account. */
  function Enrolled(s: State, rk: RoleKey): set<MemberKey> {
    set k | k in s.members && k.role == rk
  }

  /** What every reachable store keeps about the registry: a controller
      records the admin it is derived from; a role account carries the name
      it is derived from and a count that is at least one and at least the
      number of its members; a member account stores the key it is derived
      from and sits under an existing role. */
  predicate RegistryInv(s: State) {
    && (forall c :: c in s.controllers ==> s.controllers[c].admin == c)
    && (forall rk :: rk in s.roles ==>
          && s.roles[rk].role == rk.name
          && 1 <= s.roles[rk].memberCount
          && |Enrolled(s, rk)| <= s.roles[rk].memberCount)
    && (forall mk :: mk in s.members ==> mk.role in s.roles && s.members[mk].member == mk.member)
  }

  /** The accounts an admin-role instruction reads: the controller, its admin
      role account and the caller's member account under it. */
  function AdminGate(s: State, controller: Pubkey, caller: Pubkey): (r: Check)
    ensures r.Pass? <==> controller in s.controllers && HasRole(s, controller, AdminRole, caller)
    ensures r.Fail? ==> r.error == AccountNotInitialized
  {
    if controller in s.controllers && HasRole(s, controller, AdminRole, caller) then Pass
    else Fail(AccountNotInitialized)
  }

  /** `initialize`: the signer creates its controller, the admin role account
      with one grant, and its own member account under that role. */
  function InitAccessController(s: State, admin: Pubkey): (r: Result<State>)
    ensures r.Ok? <==>
      && admin !in s.controllers
      && RoleKey(admin, AdminRole) !in s.roles
      && MemberKey(RoleKey(admin, AdminRole), admin) !in s.members
    ensures r.Err? ==> r.error == AccountAlreadyInUse
    ensures r.Ok? ==>
      && r.value == s.(controllers := r.value.controllers, roles := r.value.roles, members := r.value.members)
      && r.value.controllers == s.controllers[admin := AccessController(admin)]
      && r.value.roles == s.roles[RoleKey(admin, AdminRole) := Role(AdminRole, 1)]
      && r.value.members == s.members[MemberKey(RoleKey(admin, AdminRole), admin) := Member(admin)]
  {
    var rk := RoleKey(admin, AdminRole);
    var mk := MemberKey(rk, admin);
    if admin in s.controllers || rk in s.roles || mk in s.members then Err(AccountAlreadyInUse)
    else
      Ok(s.(controllers := s.controllers[admin := AccessController(admin)],
            roles := s.roles[rk := Role(AdminRole, 1)],
            members := s.members[mk := Member(admin)]))
  }

  /** `grant_role`: the controller's admin grants a valid role to a new
      member. The role account is created on first use; every grant adds one
      to its count. */
  function GrantRole(s: State, controller: Pubkey, signer: Pubkey, name: string, newMember: Pubkey): (r: Result<State>)
    ensures r.Ok? <==>
      && controller in s.controllers
      && MemberKey(RoleKey(controller, name), newMember) !in s.members
      && s.controllers[controller].admin == signer
      && IsValidRole(name)
    ensures r.Err? ==> r.error in {AccountNotInitialized, AccountAlreadyInUse, UnauthorizedAdmin, InvalidRole}
    ensures (controller in s.controllers && MemberKey(RoleKey(controller, name), newMember) !in s.members
             && s.controllers[controller].admin != signer) ==> r == Err(UnauthorizedAdmin)
    ensures (controller in s.controllers && MemberKey(RoleKey(controller, name), newMember) !in s.members
             && s.controllers[controller].admin == signer && !IsValidRole(name)) ==> r == Err(InvalidRole)
    ensures r.Ok? ==>
      && r.value == s.(roles := r.value.roles, members := r.value.members)
      && r.value.members == s.members[MemberKey(RoleKey(controller, name), newMember) := Member(newMember)]
      && r.value.roles.Keys == s.roles.Keys + {RoleKey(controller, name)}
      && r.value.roles[RoleKey(controller, name)].role == name
      && r.value.roles[RoleKey(controller, name)].memberCount
           == (if RoleKey(controller, name) in s.roles then s.roles[RoleKey(controller, name)].memberCount else 0) + 1
      && (forall k :: k in s.roles && k != RoleKey(controller, name) ==> r.value.roles[k] == s.roles[k])
  {
    var rk := RoleKey(controller, name);
    var mk := MemberKey(rk, newMember);
    if controller !in s.controllers then Err(AccountNotInitialized)
    else if mk in s.members then Err(AccountAlreadyInUse)
    else if s.controllers[controller].admin != signer then Err(UnauthorizedAdmin)
    else if !IsValidRole(name) then Err(InvalidRole)
    else
      var count := if rk in s.roles then s.roles[rk].memberCount else 0;
      Ok(s.(roles := s.roles[rk := Role(name, count + 1)], members := s.members[mk := Member(newMember)]))
  }

  /** `renounce_role`: the controller's admin closes a member account. The
      last-member guard reads the role's count, which is never lowered. */
  function RenounceRole(s: State, controller: Pubkey, signer: Pubkey, name: string, member: Pubkey): (r: Result<State>)
    ensures r.Ok? <==>
      && controller in s.controllers && HasRole(s, controller, name, member)
      && s.controllers[controller].admin == signer
      && s.roles[RoleKey(controller, name)].memberCount != 1
    ensures r.Err? ==> r.error in {AccountNotInitialized, UnauthorizedAdmin, LastMember}
    ensures (controller in s.controllers && HasRole(s, controller, name, member) && s.controllers[controller].admin == signer
             && s.roles[RoleKey(controller, name)].memberCount == 1) ==> r == Err(LastMember)
    ensures r.Ok? ==>
      r.value == s.(members := s.members - {MemberKey(RoleKey(controller, name), member)})
  {
    var rk := RoleKey(controller, name);
    var mk := MemberKey(rk, member);
    if controller !in s.controllers || rk !in s.roles || mk !in s.members then Err(AccountNotInitialized)
    else if s.controllers[controller].admin != signer then Err(UnauthorizedAdmin)
    else if s.roles[rk].memberCount == 1 then Err(LastMember)
    else Ok(s.(members := s.members - {mk}))
  }

  /** `check_role`: succeeds, changing nothing, exactly when the member holds
      the role. The empty-data test of the source cannot fail on an account
      that exists, so `NoRole` is never returned. */
  function CheckRole(s: State, controller: Pubkey, name: string, member: Pubkey): (r: Result<State>)
    ensures r.Ok? <==> controller in s.controllers && HasRole(s, controller, name, member)
    ensures r.Ok? ==> r.value == s
    ensures r.Err? ==> r.error == AccountNotInitialized
  {
    var rk := RoleKey(controller, name);
    if controller !in s.controllers || rk !in s.roles || MemberKey(rk, member) !in s.members then Err(AccountNotInitialized)
    else Ok(s)
  }

  // ---- lemmas ----

  lemma EnrolledAdd(s: State, mk: MemberKey, m: Member)
    requires mk !in s.members
    ensures Enrolled(s.(members := s.members[mk := m]), mk.role) == Enrolled(s, mk.role) + {mk}
    ensures forall rk :: rk != mk.role ==> Enrolled(s.(members := s.members[mk := m]), rk) == Enrolled(s, rk)
  {
  }

  /** Enrolling a new member adds exactly one to its role's member count. */
  lemma EnrolledAddCard(s: State, mk: MemberKey, m: Member)
    requires mk !in s.members
    ensures |Enrolled(s.(members := s.members[mk := m]), mk.role)| == |Enrolled(s, mk.role)| + 1
  {
    EnrolledAdd(s, mk, m);
    assert mk !in Enrolled(s, mk.role);
  }

  lemma EnrolledRemove(s: State, mk: MemberKey)
    requires mk in s.members
    ensures Enrolled(s.(members := s.members - {mk}), mk.role) == Enrolled(s, mk.role) - {mk}
    ensures forall rk :: rk != mk.role ==> Enrolled(s.(members := s.members - {mk}), rk) == Enrolled(s, rk)
  {
  }

  /** Creating a controller keeps the registry invariant. */
  lemma InitAccessControllerKeepsInv(s: State, admin: Pubkey)
    requires RegistryInv(s)
    ensures InitAccessController(s, admin).Ok? ==> RegistryInv(InitAccessController(s, admin).value)
  {
    var r := InitAccessController(s, admin);
    if r.Ok? {
      var mk := MemberKey(RoleKey(admin, AdminRole), admin);
      AddMemberKeepsInv(s, mk);
      var t := s.(roles := s.roles[mk.role := Role(AdminRole, 1)], members := s.members[mk := Member(admin)]);
      assert r.value == t.(controllers := s.controllers[admin := AccessController(admin)]);
    }
  }

  /** Granting a role keeps the registry invariant: the count grows with the
      set of members. */
  lemma GrantRoleKeepsInv(s: State, controller: Pubkey, signer: Pubkey, name: string, newMember: Pubkey)
    requires RegistryInv(s)
    ensures GrantRole(s, controller, signer, name, newMember).Ok? ==> RegistryInv(GrantRole(s, controller, signer, name, newMember).value)
  {
    if GrantRole(s, controller, signer, name, newMember).Ok? {
      AddMemberKeepsInv(s, MemberKey(RoleKey(controller, name), newMember));
    }
  }

  /** Enrolling a new member under a role (created with a count of one when
      missing, otherwise counted once more) keeps the registry invariant. */
  lemma AddMemberKeepsInv(s: State, mk: MemberKey)
    requires RegistryInv(s) && mk !in s.members
    ensures var count := if mk.role in s.roles then s.roles[mk.role].memberCount else 0;
      RegistryInv(s.(roles := s.roles[mk.role := Role(mk.role.name, count + 1)], members := s.members[mk := Member(mk.member)]))
  {
    AddMemberKeepsRoles(s, mk);
  }

  /** The role conjunct of the registry invariant after a grant: the granted
      role's count grows by one together with its members, every other role
      is untouched. */
  lemma AddMemberKeepsRoles(s: State, mk: MemberKey)
    requires RegistryInv(s) && mk !in s.members
    ensures var count := if mk.role in s.roles then s.roles[mk.role].memberCount else 0;
      var t := s.(roles := s.roles[mk.role := Role(mk.role.name, count + 1)], members := s.members[mk := Member(mk.member)]);
      forall k :: k in t.roles ==> |Enrolled(t, k)| <= t.roles[k].memberCount
  {
    var rk := mk.role;
    var s1 := s.(members := s.members[mk := Member(mk.member)]);
    var count := if rk in s.roles then s.roles[rk].memberCount else 0;
    var t := s1.(roles := s.roles[rk := Role(rk.name, count + 1)]);
    EnrolledAdd(s, mk, Member(mk.member));
    EnrolledAddCard(s, mk, Member(mk.member));
    if rk !in s.roles {
      assert Enrolled(s, rk) == {} by {
        forall k | k in s.members ensures k.role != rk {
          assert k.role in s.roles;
        }
      }
    }
    forall k | k in t.roles
      ensures |Enrolled(t, k)| <= t.roles[k].memberCount
    {
      assert Enrolled(t, k) == Enrolled(s1, k);
      if k == rk {
        assert t.roles[k].memberCount == count + 1;
      } else {
        assert Enrolled(s1, k) == Enrolled(s, k);
        assert t.roles[k] == s.roles[k];
      }
    }
  }

  /** Renouncing a role keeps the registry invariant. */
  lemma RenounceRoleKeepsInv(s: State, controller: Pubkey, signer: Pubkey, name: string, member: Pubkey)
    requires RegistryInv(s)
    ensures RenounceRole(s, controller, signer, name, member).Ok? ==> RegistryInv(RenounceRole(s, controller, signer, name, member).value)
  {
    var r := RenounceRole(s, controller, signer, name, member);
    if r.Ok? {
      var mk := MemberKey(RoleKey(controller, name), member);
      EnrolledRemove(s, mk);
      forall k | k in r.value.roles
        ensures |Enrolled(r.value, k)| <= r.value.roles[k].memberCount
      {
        assert |Enrolled(r.value, k)| <= |Enrolled(s, k)|;
      }
    }
  }

  /** After a successful initialisation the signer holds the admin role, and
      a second initialisation by the same signer is refused. */
  lemma InitThenCheckAndReinit(s: State, admin: Pubkey)
    requires InitAccessController(s, admin).Ok?
    ensures CheckRole(InitAccessController(s, admin).value, admin, AdminRole, admin).Ok?
    ensures AdminGate(InitAccessController(s, admin).value, admin, admin).Pass?
    ensures InitAccessController(InitAccessController(s, admin).value, admin) == Err(AccountAlreadyInUse)
  {
  }

  /** After a grant the new member holds the role, and granting the same
      role to the same member again is refused. */
  lemma GrantThenCheckAndRegrant(s: State, controller: Pubkey, signer: Pubkey, name: string, newMember: Pubkey)
    requires GrantRole(s, controller, signer, name, newMember).Ok?
    ensures CheckRole(GrantRole(s, controller, signer, name, newMember).value, controller, name, newMember).Ok?
    ensures GrantRole(GrantRole(s, controller, signer, name, newMember).value, controller, signer, name, newMember)
      == Err(AccountAlreadyInUse)
  {
  }

  /** After a renounce the member no longer holds the role, renouncing again
      fails, and every other member keeps its role. */
  lemma RenounceThenCheck(s: State, controller: Pubkey, signer: Pubkey, name: string, member: Pubkey)
    requires RenounceRole(s, controller, signer, name, member).Ok?
    ensures CheckRole(RenounceRole(s, controller, signer, name, member).value, controller, name, member) == Err(AccountNotInitialized)
    ensures RenounceRole(RenounceRole(s, controller, signer, name, member).value, controller, signer, name, member) == Err(AccountNotInitialized)
    ensures forall c, n, m :: (c, n, m) != (controller, name, member) ==>
      (HasRole(RenounceRole(s, controller, signer, name, member).value, c, n, m) <==> HasRole(s, c, n, m))
  {
  }

  /** Granting and then renouncing the same member restores the member
      accounts but leaves the role's count one higher. */
  lemma GrantThenRenounce(s: State, controller: Pubkey, signer: Pubkey, name: string, newMember: Pubkey)
    requires GrantRole(s, controller, signer, name, newMember).Ok?
    requires RoleKey(controller, name) in s.roles && s.roles[RoleKey(controller, name)].memberCount >= 1
    ensures var t := GrantRole(s, controller, signer, name, newMember).value;
      && RenounceRole(t, controller, signer, name, newMember).Ok?
      && RenounceRole(t, controller, signer, name, newMember).value.members == s.members
      && RenounceRole(t, controller, signer, name, newMember).value.roles[RoleKey(controller, name)].memberCount
           == s.roles[RoleKey(controller, name)].memberCount + 1
  {
    var t := GrantRole(s, controller, signer, name, newMember).value;
    assert t.members - {MemberKey(RoleKey(controller, name), newMember)} == s.members;
  }

  /** Because renouncing never lowers the count, the last-member guard can be
      passed twice: after two grants of a role and two renounces the role has
      no members left. */
  lemma RenounceCanEmptyRole(s: State, admin: Pubkey, name: string, a: Pubkey, b: Pubkey)
    requires a != b && IsValidRole(name)
    requires admin in s.controllers && s.controllers[admin].admin == admin
    requires RoleKey(admin, name) !in s.roles && Enrolled(s, RoleKey(admin, name)) == {}
    ensures var s2 := GrantRole(s, admin, admin, name, a);
      && s2.Ok?
      && var s3 := GrantRole(s2.value, admin, admin, name, b);
      && s3.Ok?
      && var s4 := RenounceRole(s3.value, admin, admin, name, a);
      && s4.Ok?
      && var s5 := RenounceRole(s4.value, admin, admin, name, b);
      && s5.Ok?
      && s5.value.roles[RoleKey(admin, name)].memberCount == 2
      && Enrolled(s5.value, RoleKey(admin, name)) == {}
  {
    var rk := RoleKey(admin, name);
    assert MemberKey(rk, a) !in Enrolled(s, rk) && MemberKey(rk, b) !in Enrolled(s, rk);
    var s2 := GrantRole(s, admin, admin, name, a).value;
    EnrolledAdd(s, MemberKey(rk, a), Member(a));
    var s3 := GrantRole(s2, admin, admin, name, b).value;
    EnrolledAdd(s2, MemberKey(rk, b), Member(b));
    assert s3.roles[rk].memberCount == 2;
    var s4 := RenounceRole(s3, admin, admin, name, a).value;
    EnrolledRemove(s3, MemberKey(rk, a));
    var s5 := RenounceRole(s4, admin, admin, name, b).value;
    EnrolledRemove(s4, MemberKey(rk, b));
  }
}
