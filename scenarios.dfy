/**
 * Worked logins: concrete configurations and directory answers, and what
 * the resolution makes of them.
 */
module Scenarios {
  import opened Wrappers
  import opened PermissionMaps
  import opened UniAuthModel
  import opened DomainAggregation
  import opened PrincipalFactory
  import opened CallbackOrder
  import opened UserDetailService

  const Alice: User := User(1, "alice")

  function TagRole(code: string, perms: set<string>): Role
  {
    Role(code, map["tag" := perms], map[])
  }

  lemma MergeIntoEmpty<T>(m: PermMap<T>)
    ensures Merge(map[], m) == m
  {
  }

  lemma OneRoleView(userName: string, user: User, domain: Domain)
    requires |domain.roles| == 1
    ensures DomainView(userName, user, domain).authorities == [domain.roles[0].roleCode]
    ensures DomainView(userName, user, domain).permMap == domain.roles[0].permMap
  {
    var roles := domain.roles;
    var maps := CodeMaps(roles);
    assert maps[..0] == [] && maps[0] == roles[0].permMap;
    assert MergeAll(maps[..0]) == map[];
    MergeIntoEmpty(roles[0].permMap);
  }

  /**
   * Default mode, the user's only domain is the current one with one role
   * granting tag -> {read, write}: the current view has that role as its
   * only authority and exactly that permission mapping.
   */
  lemma AdminInCurrentDomain(staticCode: string, loadable: string -> bool)
    ensures var define := DomainDefine("techops", None, false, staticCode);
      var detail := UserDetail(Alice, [Domain("techops", [TagRole("ROLE_ADMIN", {"read", "write"})])]);
      var p := Resolve(define, loadable, None, "alice", detail);
      && p.Default?
      && p.current.authorities == ["ROLE_ADMIN"]
      && p.current.permMap == map["tag" := {"read", "write"}]
      && p.domainViews.Keys == {"techops"}
  {
    var define := DomainDefine("techops", None, false, staticCode);
    var domain := Domain("techops", [TagRole("ROLE_ADMIN", {"read", "write"})]);
    var detail := UserDetail(Alice, [domain]);
    ResolvedViewsOfMatch(define, "alice", detail, 0);
    ResolveDefault(define, loadable, None, "alice", detail);
    OneRoleView("alice", Alice, domain);
  }

  /**
   * Default mode, the user belongs only to another domain: the current view
   * is empty and is stored under the current code, while its domain carries
   * the static code.
   */
  lemma OnlyOtherDomain(staticCode: string, loadable: string -> bool)
    ensures var define := DomainDefine("techops", None, false, staticCode);
      var detail := UserDetail(Alice, [Domain("other", [TagRole("ROLE_ADMIN", {"read"})])]);
      var p := Resolve(define, loadable, None, "alice", detail);
      && p.Default?
      && p.current.authorities == [] && p.current.permMap == map[] && p.current.permDtoMap == map[]
      && p.current.domain.code == staticCode
      && p.domainViews.Keys == {"techops"}
  {
    var define := DomainDefine("techops", None, false, staticCode);
    var detail := UserDetail(Alice, [Domain("other", [TagRole("ROLE_ADMIN", {"read"})])]);
    ResolvedViewsOfNoMatch(define, "alice", detail);
    ResolveDefault(define, loadable, None, "alice", detail);
  }

  /**
   * Share-all mode with two domains whose single roles grant different
   * values for the same permission type: each view reflects its own
   * domain's role only.
   */
  lemma TwoDomainsShared(staticCode: string, loadable: string -> bool)
    ensures var define := DomainDefine("techops", None, true, staticCode);
      var detail := UserDetail(Alice, [Domain("techops", [Role("R1", map["a" := {"x"}], map[])]),
                                       Domain("billing", [Role("R2", map["a" := {"y"}], map[])])]);
      var p := Resolve(define, loadable, None, "alice", detail);
      && p.Default?
      && p.domainViews.Keys == {"techops", "billing"}
      && p.current.permMap == map["a" := {"x"}]
      && p.domainViews["billing"].permMap == map["a" := {"y"}]
  {
    var define := DomainDefine("techops", None, true, staticCode);
    var techops := Domain("techops", [Role("R1", map["a" := {"x"}], map[])]);
    var billing := Domain("billing", [Role("R2", map["a" := {"y"}], map[])]);
    var detail := UserDetail(Alice, [techops, billing]);
    var views := ResolvedViews(define, "alice", detail);
    forall code
      ensures code in views <==> code == "techops" || code == "billing"
    {
      ResolvedViewsShareAll(define, "alice", detail, code);
    }
    assert IsLastWithCode(detail.domains, 0) && IsLastWithCode(detail.domains, 1);
    OneRoleView("alice", Alice, techops);
    OneRoleView("alice", Alice, billing);
    ResolveDefault(define, loadable, None, "alice", detail);
  }

  /**
   * An empty account name: the caller gets "not found", the failure
   * callback is told once with ("", 5, the exception), and the success
   * callback is not told.
   */
  method EmptyAccount(loadable: string -> bool) returns (r: Result<UserExtInfo, NotFound>, deliveries: seq<Delivery>)
    ensures r == Failure(UsernameNotFound(" not found"))
    ensures var e := LoadUserFailed(Some(""), 5, UsernameNotFound(" not found"));
      deliveries == [FailedDelivery("metrics", e), FailedDelivery("audit", e)]
  {
    var service := new SSMultiTenancyUserDetailService(DomainDefine("techops", None, false, "static"), None);
    service.AfterPropertiesSet([CallBack("audit", false, 2), CallBack("metrics", false, 1)], []);
    assert service.loadUserFailedCallBacks == [CallBack("metrics", false, 1), CallBack("audit", false, 2)] by {
      StableSortUnique(service.loadUserFailedCallBacks, [CallBack("metrics", false, 1), CallBack("audit", false, 2)]);
    }
    assert NotFoundFor(Some("")) == UsernameNotFound(" not found") by {
      assert NameText(Some("")) + " not found" == " not found";
    }
    r := service.LoadUserByUsername(Some(""), 5, None, loadable);
    var e := LoadUserFailed(Some(""), 5, UsernameNotFound(" not found"));
    assert service.failedCalls == [e] && service.successCalls == [];
    deliveries := service.deliveries;
  }
}
