/** Program constants: the withdrawal queue capacity and the role names. */
module Constants {
  import opened Errors

  /** Maximum number of pending withdrawals per client balance. */
  const WithdrawalLimit: nat := 5

  datatype Roles = Admin | UtilityAccount | Liquidator

  /** The role name under which a role account is stored. */
  function AsStr(r: Roles): string {
    match r
    case Admin => "DEFAULT_ADMIN_ROLE"
    case UtilityAccount => "UTILITY_ACCOUNT_ROLE"
    case Liquidator => "LIQUIDATOR_ROLE"
  }

  function FromStr(role: string): Option<Roles> {
    if role == "DEFAULT_ADMIN_ROLE" then Some(Admin)
    else if role == "UTILITY_ACCOUNT_ROLE" then Some(UtilityAccount)
    else if role == "LIQUIDATOR_ROLE" then Some(Liquidator)
    else None
  }

  predicate IsValidRole(role: string) {
    role == "DEFAULT_ADMIN_ROLE" || role == "UTILITY_ACCOUNT_ROLE" || role == "LIQUIDATOR_ROLE"
  }

  const AdminRole: string := AsStr(Admin)
  const UtilityAccountRole: string := AsStr(UtilityAccount)

  /** Parsing the name of a role gives the role back. */
  lemma FromStrAsStr(r: Roles)
    ensures FromStr(AsStr(r)) == Some(r)
  {
  }

  /** Distinct roles have distinct names. */
  lemma AsStrInjective(r1: Roles, r2: Roles)
    ensures AsStr(r1) == AsStr(r2) ==> r1 == r2
  {
    FromStrAsStr(r1);
    FromStrAsStr(r2);
  }

  /** A name passes the validity check exactly when it parses to a role, and
      then it is that role's name. */
  lemma IsValidRoleIffFromStr(role: string)
    ensures IsValidRole(role) <==> FromStr(role).Some?
    ensures FromStr(role).Some? ==> AsStr(FromStr(role).value) == role
  {
  }

  /** Exactly three names are valid role names. */
  lemma ExactlyThreeValidRoles()
    ensures forall role: string :: IsValidRole(role) <==> role in {AsStr(Admin), AsStr(UtilityAccount), AsStr(Liquidator)}
    ensures |{AsStr(Admin), AsStr(UtilityAccount), AsStr(Liquidator)}| == 3
  {
    AsStrInjective(Admin, UtilityAccount);
    AsStrInjective(Admin, Liquidator);
    AsStrInjective(UtilityAccount, Liquidator);
  }
}
