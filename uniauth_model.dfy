/**
 * The values that flow through SSMultiTenancyUserDetailService: what the
 * directory returns (UserDetailDto with its UserDto, DomainDto and RoleDto
 * records), the configuration read from DomainDefine, the per-domain record
 * UserExtInfoParam and the principal UserExtInfo.
 */
module UniAuthModel {
  import opened Wrappers
  import opened PermissionMaps

  /**
   * A permission object (PermissionDto). As a datatype it is compared by
   * value; whether the source's sets compare it so is an assumption of this model.
   */
  datatype Permission = Permission(id: int, value: string, permType: string)

  /** RoleDto: its code and the two permission mappings it grants. */
  datatype Role = Role(roleCode: string, permMap: PermMap<string>, permDtoMap: PermMap<Permission>)

  /** DomainDto: a tenancy domain and the user's roles in it (a null role list is empty). */
  datatype Domain = Domain(code: string, roles: seq<Role>)

  /** UserDto: the account record. */
  datatype User = User(id: int, account: string)

  /** UserDetailDto: the user and the domains the user belongs to (a null list is empty). */
  datatype UserDetail = UserDetail(user: User, domains: seq<Domain>)

  /**
   * DomainDefine: the current domain code, the optional class name of a
   * custom principal, the share-all-domains flag and the code that
   * DomainDefine.getStaticDomainCode() reports.
   */
  datatype DomainDefine = DomainDefine(
    domainCode: string,
    userInfoClass: Option<string>,
    shareAllDomains: bool,
    staticDomainCode: string)

  /** UserExtInfoParam: the view of the user in one domain. */
  datatype UserExtInfoParam = UserExtInfoParam(
    username: string,
    password: string,
    enabled: bool,
    accountNonExpired: bool,
    credentialsNonExpired: bool,
    accountNonLocked: bool,
    authorities: seq<string>,
    id: int,
    user: User,
    domain: Domain,
    permMap: PermMap<string>,
    permDtoMap: PermMap<Permission>)

  /**
   * The principal. UserExtInfo.build gives the default one, holding the
   * current domain's view and every domain's view; Custom is an instance of a
   * configured subclass, built from the current view's fields alone.
   */
  datatype UserExtInfo =
    | Default(current: UserExtInfoParam, domainViews: map<string, UserExtInfoParam>)
    | Custom(className: string, current: UserExtInfoParam)

  /** The placeholder credential every view carries. */
  const FakePassword: string := "fake_password"

  /** UsernameNotFoundException, with its message. */
  datatype NotFound = UsernameNotFound(message: string)

  /** The text Java's string concatenation gives for a possibly null user name. */
  function NameText(userName: Option<string>): string
  {
    match userName
    case None => "null"
    case Some(name) => name
  }

  /** The exception thrown when the user cannot be found: `userName + " not found"`. */
  function NotFoundFor(userName: Option<string>): (e: NotFound)
    ensures |e.message| == |NameText(userName)| + |" not found"|
    ensures e.message[|e.message| - |" not found"|..] == " not found"
    ensures userName.Some? ==> e.message[..|userName.value|] == userName.value
    ensures userName.None? ==> e.message[..4] == "null"
  {
    UsernameNotFound(NameText(userName) + " not found")
  }
}
