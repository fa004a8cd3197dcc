/**
 * The second half of loadUserByUsername: the static-domain fallback for a
 * missing current domain, the choice between the default principal and a
 * configured custom one, and the whole resolution as one function of the
 * configuration and the directory's answer.
 */
module PrincipalFactory {
  import opened Wrappers
  import opened PermissionMaps
  import opened UniAuthModel
  import opened DomainAggregation

  // ---------------------------------------------------------------------
  // Static-domain fallback

  /** The view synthesised when the current domain has no view of its own. */
  function StaticView(userName: string, user: User, staticCode: string): UserExtInfoParam
  {
    UserExtInfoParam(userName, FakePassword, true, true, true, true, [], user.id, user,
      Domain(staticCode, []), map[], map[])
  }

  /**
   * Looks up the current code and, when it is missing, stores a static view
   * under it. Afterwards the current code is always present; when it was
   * missing its entry has no authorities, no permissions and a domain whose
   * code is the static code (not the current one); every other entry is
   * left as it was.
   */
  function WithStaticDomain(views: map<string, UserExtInfoParam>, currentCode: string, staticCode: string,
                            userName: string, user: User): (r: map<string, UserExtInfoParam>)
    ensures r.Keys == views.Keys + {currentCode}
    ensures forall code :: code in views ==> r[code] == views[code]
    ensures currentCode !in views ==>
      && r[currentCode].authorities == []
      && r[currentCode].permMap == map[] && r[currentCode].permDtoMap == map[]
      && r[currentCode].domain.code == staticCode
      && r[currentCode].username == userName && r[currentCode].user == user
  {
    if currentCode in views then views
    else views[currentCode := StaticView(userName, user, staticCode)]
  }

  // ---------------------------------------------------------------------
  // Choosing the principal

  /** String.trim: drops every leading and trailing character at or below ' '. */
  function Trim(s: string): string
  {
    TrimTrailing(TrimLeading(s))
  }

  function TrimLeading(s: string): string
  {
    if |s| > 0 && s[0] <= ' ' then TrimLeading(s[1..]) else s
  }

  function TrimTrailing(s: string): string
  {
    if |s| > 0 && s[|s| - 1] <= ' ' then TrimTrailing(s[..|s| - 1]) else s
  }

  /** No character of `s` is above ' '. */
  ghost predicate IsBlank(s: string)
  {
    forall i :: 0 <= i < |s| ==> s[i] <= ' '
  }

  lemma {:induction false} TrimLeadingBlank(s: string)
    ensures TrimLeading(s) == [] <==> IsBlank(s)
    ensures TrimLeading(s) != [] ==> TrimLeading(s)[0] > ' '
  {
    if |s| > 0 && s[0] <= ' ' {
      TrimLeadingBlank(s[1..]);
      assert forall i :: 0 < i < |s| ==> s[i] == s[1..][i - 1];
    }
  }

  lemma {:induction false} TrimTrailingKeepsFirst(s: string)
    requires |s| > 0 && s[0] > ' '
    ensures TrimTrailing(s) != []
  {
    if s[|s| - 1] <= ' ' {
      TrimTrailingKeepsFirst(s[..|s| - 1]);
    }
  }

  /** `"".equals(s.trim())` holds exactly when every character of `s` is at or below ' '. */
  lemma TrimEmptyIffBlank(s: string)
    ensures Trim(s) == "" <==> IsBlank(s)
  {
    TrimLeadingBlank(s);
    if TrimLeading(s) != [] {
      TrimTrailingKeepsFirst(TrimLeading(s));
    }
  }

  /** The custom-class branch is skipped: no class name, or one that trims to "". */
  predicate NoCustomClass(userInfoClass: Option<string>)
  {
    userInfoClass.None? || Trim(userInfoClass.value) == ""
  }

  /**
   * Picks the principal. `loadable(name)` says whether Class.forName, the
   * twelve-argument constructor and the cast to UserExtInfo all succeed for
   * `name`; `fill` is the optional UserInfoCallBack, whose result None
   * stands for fill throwing.
   */
  function ChoosePrincipal(userInfoClass: Option<string>, loadable: string -> bool,
                           fill: Option<UserExtInfoParam -> Option<UserExtInfoParam>>,
                           current: UserExtInfoParam, views: map<string, UserExtInfoParam>): (r: UserExtInfo)
    ensures r.Default? ==> r == Default(current, views)
    ensures r.Custom? ==>
      userInfoClass.Some? && loadable(userInfoClass.value) && r.className == userInfoClass.value
  {
    var default := Default(current, views);
    if NoCustomClass(userInfoClass) then default
    else if !loadable(userInfoClass.value) then default
    else
      match fill
      case None => Custom(userInfoClass.value, current)
      case Some(hook) =>
        match hook(current)
        case Some(filled) => Custom(userInfoClass.value, filled)
        case None => default
  }

  /**
   * A principal is always produced. With no class name, or a blank one, it
   * is the default principal; any failure of the custom construction or of
   * the fill hook also gives the default principal; otherwise it is an
   * instance of the configured class holding the current view, as the hook
   * filled it.
   */
  lemma ChoosePrincipalIs(userInfoClass: Option<string>, loadable: string -> bool,
                          fill: Option<UserExtInfoParam -> Option<UserExtInfoParam>>,
                          current: UserExtInfoParam, views: map<string, UserExtInfoParam>)
    ensures var r := ChoosePrincipal(userInfoClass, loadable, fill, current, views);
      (userInfoClass.None? || IsBlank(userInfoClass.value)) ==> r == Default(current, views)
    ensures var r := ChoosePrincipal(userInfoClass, loadable, fill, current, views);
      userInfoClass.Some? && !IsBlank(userInfoClass.value) ==>
        && (!loadable(userInfoClass.value) ==> r == Default(current, views))
        && (loadable(userInfoClass.value) && fill.None? ==> r == Custom(userInfoClass.value, current))
        && (loadable(userInfoClass.value) && fill.Some? ==>
              var filled := fill.value(current);
              r == if filled.Some? then Custom(userInfoClass.value, filled.value) else Default(current, views))
    ensures var r := ChoosePrincipal(userInfoClass, loadable, fill, current, views);
      userInfoClass.Some? && !IsBlank(userInfoClass.value) && loadable(userInfoClass.value)
        && (fill.None? || fill.value(current).Some?) ==>
        r.Custom? && r.className == userInfoClass.value
  {
    if userInfoClass.Some? {
      TrimEmptyIffBlank(userInfoClass.value);
    }
  }

  // ---------------------------------------------------------------------
  // The whole resolution

  /** userExtInfos after the aggregation loops and the static fallback. */
  function ResolvedViews(define: DomainDefine, userName: string, detail: UserDetail): (r: map<string, UserExtInfoParam>)
    ensures define.domainCode in r
  {
    var selected := Selected(detail.domains, define.domainCode, define.shareAllDomains);
    WithStaticDomain(Views(userName, detail.user, selected), define.domainCode, define.staticDomainCode,
      userName, detail.user)
  }

  /** The principal loadUserByUsername returns for a found user. */
  function Resolve(define: DomainDefine, loadable: string -> bool,
                   fill: Option<UserExtInfoParam -> Option<UserExtInfoParam>>,
                   userName: string, detail: UserDetail): (r: UserExtInfo)
    ensures var views := ResolvedViews(define, userName, detail);
      r.Default? ==> r == Default(views[define.domainCode], views)
    ensures r.Custom? ==> define.userInfoClass.Some? && r.className == define.userInfoClass.value
  {
    var views := ResolvedViews(define, userName, detail);
    ChoosePrincipal(define.userInfoClass, loadable, fill, views[define.domainCode], views)
  }

  /**
   * Default mode, the user belongs to the current domain: the views hold
   * exactly one entry, under the current code, built from the first domain
   * carrying that code.
   */
  lemma ResolvedViewsOfMatch(define: DomainDefine, userName: string, detail: UserDetail, i: int)
    requires !define.shareAllDomains
    requires IsFirstWithCode(detail.domains, define.domainCode, i)
    ensures ResolvedViews(define, userName, detail) ==
      map[define.domainCode := DomainView(userName, detail.user, detail.domains[i])]
  {
    SelectedIs(detail.domains, define.domainCode, false);
    var d := detail.domains[i];
    assert [d][..0] == [];
    assert Views(userName, detail.user, [d]) == map[d.code := DomainView(userName, detail.user, d)];
  }

  /**
   * The user does not belong to the current domain (default mode): the views
   * hold exactly one entry, the static view, stored under the real current
   * code.
   */
  lemma ResolvedViewsOfNoMatch(define: DomainDefine, userName: string, detail: UserDetail)
    requires !define.shareAllDomains
    requires forall j :: 0 <= j < |detail.domains| ==> detail.domains[j].code != define.domainCode
    ensures ResolvedViews(define, userName, detail) ==
      map[define.domainCode := StaticView(userName, detail.user, define.staticDomainCode)]
  {
    SelectedIs(detail.domains, define.domainCode, false);
  }

  /**
   * Share-all mode: there is an entry for the current code and for every
   * domain's code and for nothing else, and each domain's entry is built from
   * that domain's roles alone (the last domain carrying the code wins), so
   * no permission leaks from one domain's view into another's.
   */
  lemma ResolvedViewsShareAll(define: DomainDefine, userName: string, detail: UserDetail, code: string)
    requires define.shareAllDomains
    ensures code in ResolvedViews(define, userName, detail) <==>
      code == define.domainCode || exists i :: 0 <= i < |detail.domains| && detail.domains[i].code == code
    ensures forall i :: IsLastWithCode(detail.domains, i) ==>
      && detail.domains[i].code in ResolvedViews(define, userName, detail)
      && ResolvedViews(define, userName, detail)[detail.domains[i].code] == DomainView(userName, detail.user, detail.domains[i])
  {
    SelectedIs(detail.domains, define.domainCode, true);
    ViewsKeys(userName, detail.user, detail.domains, code);
    forall i | IsLastWithCode(detail.domains, i)
      ensures detail.domains[i].code in ResolvedViews(define, userName, detail)
      ensures ResolvedViews(define, userName, detail)[detail.domains[i].code] == DomainView(userName, detail.user, detail.domains[i])
    {
      ViewsAt(userName, detail.user, detail.domains, i);
    }
  }

  /**
   * Without a custom class the principal is the default one: its current
   * view is the entry stored under the current code, and it carries every
   * domain's view.
   */
  lemma ResolveDefault(define: DomainDefine, loadable: string -> bool,
                       fill: Option<UserExtInfoParam -> Option<UserExtInfoParam>>,
                       userName: string, detail: UserDetail)
    requires define.userInfoClass.None? || IsBlank(define.userInfoClass.value)
    ensures var views := ResolvedViews(define, userName, detail);
      Resolve(define, loadable, fill, userName, detail) == Default(views[define.domainCode], views)
  {
    var views := ResolvedViews(define, userName, detail);
    ChoosePrincipalIs(define.userInfoClass, loadable, fill, views[define.domainCode], views);
  }
}
