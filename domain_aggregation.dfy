/**
 * The aggregation part of loadUserByUsername: which of the user's domains
 * are used, the view built for each of them from its roles, and the map of
 * views keyed by domain code.
 */
module DomainAggregation {
  import opened PermissionMaps
  import opened UniAuthModel

  // ---------------------------------------------------------------------
  // Domain selection

  /** The first domain whose code is `code`, as a list of at most one. */
  function FirstWithCode(domains: seq<Domain>, code: string): seq<Domain>
  {
    if |domains| == 0 then []
    else if domains[0].code == code then [domains[0]]
    else FirstWithCode(domains[1..], code)
  }

  /** The domains that feed the aggregation (the list tempDomainDtoList). */
  function Selected(domains: seq<Domain>, code: string, shareAll: bool): seq<Domain>
  {
    if shareAll then domains else FirstWithCode(domains, code)
  }

  /** The index of the first domain carrying `code`, when there is one. */
  ghost predicate IsFirstWithCode(domains: seq<Domain>, code: string, i: int)
  {
    0 <= i < |domains| && domains[i].code == code &&
    forall j :: 0 <= j < i ==> domains[j].code != code
  }

  lemma {:induction false} FirstWithCodeIs(domains: seq<Domain>, code: string)
    ensures |FirstWithCode(domains, code)| <= 1
    ensures FirstWithCode(domains, code) == [] <==> forall j :: 0 <= j < |domains| ==> domains[j].code != code
    ensures forall i :: IsFirstWithCode(domains, code, i) ==> FirstWithCode(domains, code) == [domains[i]]
  {
    if |domains| > 0 && domains[0].code != code {
      var rest := domains[1..];
      FirstWithCodeIs(rest, code);
      assert forall j :: 0 < j < |domains| ==> domains[j] == rest[j - 1];
      forall i | IsFirstWithCode(domains, code, i)
        ensures FirstWithCode(domains, code) == [domains[i]]
      {
        assert IsFirstWithCode(rest, code, i - 1);
      }
    }
  }

  /**
   * In the default mode at most one domain is selected: the first one, in
   * list order, whose code is the current code, and none when no domain has
   * it. In share-all mode every domain is selected, in the same order.
   */
  lemma SelectedIs(domains: seq<Domain>, code: string, shareAll: bool)
    ensures shareAll ==> Selected(domains, code, shareAll) == domains
    ensures !shareAll ==> |Selected(domains, code, shareAll)| <= 1
    ensures !shareAll ==>
      (Selected(domains, code, shareAll) == [] <==> forall j :: 0 <= j < |domains| ==> domains[j].code != code)
    ensures !shareAll ==>
      forall i :: IsFirstWithCode(domains, code, i) ==> Selected(domains, code, shareAll) == [domains[i]]
  {
    FirstWithCodeIs(domains, code);
  }

  /** The selection loop: scans for the current code and stops at the first match. */
  method SelectDomains(domains: seq<Domain>, code: string, shareAll: bool) returns (selected: seq<Domain>)
    ensures selected == Selected(domains, code, shareAll)
  {
    if shareAll {
      return domains;
    }
    selected := [];
    var i := 0;
    while i < |domains|
      invariant 0 <= i <= |domains|
      invariant selected == []
      invariant FirstWithCode(domains[i..], code) == FirstWithCode(domains, code)
    {
      if domains[i].code == code {
        selected := [domains[i]];
        break;
      }
      assert domains[i..][1..] == domains[i + 1..];
      i := i + 1;
    }
  }

  // ---------------------------------------------------------------------
  // The view of one domain

  function RoleCodes(roles: seq<Role>): seq<string>
  {
    seq(|roles|, i requires 0 <= i < |roles| => roles[i].roleCode)
  }

  function CodeMaps(roles: seq<Role>): seq<PermMap<string>>
  {
    seq(|roles|, i requires 0 <= i < |roles| => roles[i].permMap)
  }

  function DtoMaps(roles: seq<Role>): seq<PermMap<Permission>>
  {
    seq(|roles|, i requires 0 <= i < |roles| => roles[i].permDtoMap)
  }

  /** The UserExtInfoParam built for one selected domain. */
  function DomainView(userName: string, user: User, domain: Domain): UserExtInfoParam
  {
    UserExtInfoParam(userName, FakePassword, true, true, true, true, RoleCodes(domain.roles),
      user.id, user, domain, MergeAll(CodeMaps(domain.roles)), MergeAll(DtoMaps(domain.roles)))
  }

  /**
   * A domain's view has one authority per role, the role codes in role
   * order; the credential is the placeholder, all four account flags are
   * set, and the view records the user name, the user and the domain.
   */
  lemma DomainViewRecord(userName: string, user: User, domain: Domain)
    ensures var v := DomainView(userName, user, domain);
      && v.username == userName && v.password == "fake_password"
      && v.enabled && v.accountNonExpired && v.credentialsNonExpired && v.accountNonLocked
      && v.id == user.id && v.user == user && v.domain == domain
      && |v.authorities| == |domain.roles|
      && (forall i :: 0 <= i < |domain.roles| ==> v.authorities[i] == domain.roles[i].roleCode)
  {
  }

  /**
   * A permission type appears in a domain's code mapping exactly when some
   * role of the domain grants that type, and a code is listed under the
   * type exactly when some role of the domain lists it there.
   */
  lemma DomainViewCodes(userName: string, user: User, domain: Domain, permType: string, code: string)
    ensures var v := DomainView(userName, user, domain);
      && (permType in v.permMap <==> exists i :: 0 <= i < |domain.roles| && permType in domain.roles[i].permMap)
      && (code in ValuesAt(v.permMap, permType) <==>
            exists i :: 0 <= i < |domain.roles| && code in ValuesAt(domain.roles[i].permMap, permType))
  {
    var roles := domain.roles;
    assert forall i :: 0 <= i < |roles| ==> CodeMaps(roles)[i] == roles[i].permMap;
    MergeAllMember(CodeMaps(roles), permType, code);
  }

  /** The same for the mapping of permission objects. */
  lemma DomainViewObjects(userName: string, user: User, domain: Domain, permType: string, p: Permission)
    ensures var v := DomainView(userName, user, domain);
      && (permType in v.permDtoMap <==> exists i :: 0 <= i < |domain.roles| && permType in domain.roles[i].permDtoMap)
      && (p in ValuesAt(v.permDtoMap, permType) <==>
            exists i :: 0 <= i < |domain.roles| && p in ValuesAt(domain.roles[i].permDtoMap, permType))
  {
    var roles := domain.roles;
    assert forall i :: 0 <= i < |roles| ==> DtoMaps(roles)[i] == roles[i].permDtoMap;
    MergeAllMember(DtoMaps(roles), permType, p);
  }

  /** The inner loop of loadUserByUsername: walks the roles of one domain. */
  method BuildDomainView(userName: string, user: User, domain: Domain) returns (view: UserExtInfoParam)
    ensures view == DomainView(userName, user, domain)
  {
    var roles := domain.roles;
    var permMap: PermMap<string> := map[];
    var permDtoMap: PermMap<Permission> := map[];
    var authorities: seq<string> := [];
    for i := 0 to |roles|
      invariant authorities == RoleCodes(roles[..i])
      invariant permMap == MergeAll(CodeMaps(roles[..i]))
      invariant permDtoMap == MergeAll(DtoMaps(roles[..i]))
    {
      assert CodeMaps(roles[..i + 1])[..i] == CodeMaps(roles[..i]);
      assert DtoMaps(roles[..i + 1])[..i] == DtoMaps(roles[..i]);
      authorities := authorities + [roles[i].roleCode];
      permMap := MergePermMap(permMap, roles[i].permMap);
      permDtoMap := MergePermMap(permDtoMap, roles[i].permDtoMap);
    }
    assert roles[..|roles|] == roles;
    view := UserExtInfoParam(userName, FakePassword, true, true, true, true, authorities,
      user.id, user, domain, permMap, permDtoMap);
  }

  // ---------------------------------------------------------------------
  // The map of views (userExtInfos)

  /** Puts each selected domain's view under its code, in order. */
  function Views(userName: string, user: User, selected: seq<Domain>): map<string, UserExtInfoParam>
  {
    if |selected| == 0 then map[]
    else
      var last := selected[|selected| - 1];
      Views(userName, user, selected[..|selected| - 1])[last.code := DomainView(userName, user, last)]
  }

  /** `i` is the last position in `selected` that carries its code. */
  ghost predicate IsLastWithCode(selected: seq<Domain>, i: int)
  {
    0 <= i < |selected| && forall j :: i < j < |selected| ==> selected[j].code != selected[i].code
  }

  /** The map has a key for exactly the selected domains' codes. */
  lemma {:induction false} ViewsKeys(userName: string, user: User, selected: seq<Domain>, code: string)
    ensures code in Views(userName, user, selected) <==> exists i :: 0 <= i < |selected| && selected[i].code == code
  {
    if |selected| > 0 {
      var init := selected[..|selected| - 1];
      ViewsKeys(userName, user, init, code);
      assert forall i :: 0 <= i < |init| ==> init[i] == selected[i];
    }
  }

  /**
   * Under each code is the view of the last selected domain with that code:
   * a later domain overwrites an earlier one with the same code.
   */
  lemma {:induction false} ViewsAt(userName: string, user: User, selected: seq<Domain>, i: int)
    requires IsLastWithCode(selected, i)
    ensures selected[i].code in Views(userName, user, selected)
    ensures Views(userName, user, selected)[selected[i].code] == DomainView(userName, user, selected[i])
  {
    var init := selected[..|selected| - 1];
    if i < |init| {
      assert init[i] == selected[i];
      assert IsLastWithCode(init, i) by {
        assert forall j :: i < j < |init| ==> init[j] == selected[j];
      }
      ViewsAt(userName, user, init, i);
    }
  }

  /** The outer loop of loadUserByUsername: one view per selected domain. */
  method BuildViews(userName: string, user: User, selected: seq<Domain>) returns (views: map<string, UserExtInfoParam>)
    ensures views == Views(userName, user, selected)
  {
    views := map[];
    for i := 0 to |selected|
      invariant views == Views(userName, user, selected[..i])
    {
      assert selected[..i + 1][..i] == selected[..i];
      var view := BuildDomainView(userName, user, selected[i]);
      views := views[selected[i].code := view];
    }
    assert selected[..|selected|] == selected;
  }
}
