/**
 * SSMultiTenancyUserDetailService: the object Spring creates once, whose
 * afterPropertiesSet orders the load-user callbacks and whose
 * loadUserByUsername resolves one login. The callbacks' invocations are
 * recorded in sequences so that contracts can say who was told what.
 */
module UserDetailService {
  import opened Wrappers
  import opened UniAuthModel
  import opened DomainAggregation
  import opened PrincipalFactory
  import opened CallbackOrder

  /** The arguments of LoadUserFailedCallBack.loadUserFailed. */
  datatype FailedEvent = LoadUserFailed(userName: Option<string>, tenancyId: int, error: NotFound)

  /** One member callback of a composite being told of a failure or a success. */
  datatype Delivery =
    | FailedDelivery(beanName: string, failed: FailedEvent)
    | SuccessDelivery(beanName: string, principal: UserExtInfo)

  /** What the composite failure callback passes on, member by member, in list order. */
  function FailedDeliveries(callBacks: seq<CallBack>, e: FailedEvent): seq<Delivery>
  {
    seq(|callBacks|, i requires 0 <= i < |callBacks| => FailedDelivery(callBacks[i].beanName, e))
  }

  /** What the composite success callback passes on, member by member, in list order. */
  function SuccessDeliveries(callBacks: seq<CallBack>, p: UserExtInfo): seq<Delivery>
  {
    seq(|callBacks|, i requires 0 <= i < |callBacks| => SuccessDelivery(callBacks[i].beanName, p))
  }

  /** `userName == null || "".equals(userName)`. */
  function NameMissing(userName: Option<string>): (r: bool)
    ensures !r ==> userName.Some? && |userName.value| > 0
    ensures userName.Some? && |userName.value| > 0 ==> !r
  {
    userName.None? || userName.value == ""
  }

  class SSMultiTenancyUserDetailService {
    /** The injected DomainDefine. */
    const domainDefine: DomainDefine
    /** The optional UserInfoCallBack; its result None stands for fill throwing. */
    const userInfoCallBack: Option<UserExtInfoParam -> Option<UserExtInfoParam>>

    /** Whether afterPropertiesSet has run (before that both callbacks are null). */
    var initialized: bool
    /** The members of the composite failure and success callbacks, in call order. */
    var loadUserFailedCallBacks: seq<CallBack>
    var loadUserSuccessCallBacks: seq<CallBack>

    /** Every invocation of the composite failure callback and of the composite success callback. */
    var failedCalls: seq<FailedEvent>
    var successCalls: seq<UserExtInfo>
    /** Every member invocation, across both composites, in order. */
    var deliveries: seq<Delivery>

    ghost predicate Valid()
      reads this
    {
      initialized ==> Sorted(loadUserFailedCallBacks) && Sorted(loadUserSuccessCallBacks)
    }

    constructor (domainDefine: DomainDefine, userInfoCallBack: Option<UserExtInfoParam -> Option<UserExtInfoParam>>)
      ensures Valid() && !initialized
      ensures this.domainDefine == domainDefine && this.userInfoCallBack == userInfoCallBack
      ensures failedCalls == [] && successCalls == [] && deliveries == []
    {
      this.domainDefine := domainDefine;
      this.userInfoCallBack := userInfoCallBack;
      initialized := false;
      loadUserFailedCallBacks, loadUserSuccessCallBacks := [], [];
      failedCalls, successCalls, deliveries := [], [], [];
    }

    /**
     * afterPropertiesSet: the failure and success callback beans, in the
     * order the application context lists them, are each sorted by
     * OrderComparator and become the members of the two composites. Each list
     * is a permutation of the beans, in non-decreasing order, and beans with
     * equal keys keep the context's order.
     */
    method AfterPropertiesSet(failedBeans: seq<CallBack>, successBeans: seq<CallBack>)
      requires Valid()
      modifies this
      ensures Valid() && initialized
      ensures Sorted(loadUserFailedCallBacks) && multiset(loadUserFailedCallBacks) == multiset(failedBeans)
      ensures forall k :: WithKey(loadUserFailedCallBacks, k) == WithKey(failedBeans, k)
      ensures Sorted(loadUserSuccessCallBacks) && multiset(loadUserSuccessCallBacks) == multiset(successBeans)
      ensures forall k :: WithKey(loadUserSuccessCallBacks, k) == WithKey(successBeans, k)
      ensures failedCalls == old(failedCalls) && successCalls == old(successCalls) && deliveries == old(deliveries)
    {
      loadUserFailedCallBacks := SortByOrder(failedBeans);
      loadUserSuccessCallBacks := SortByOrder(successBeans);
      initialized := true;
    }

    /** MultipleLoadUserFailedCallBackDelegate.loadUserFailed: tells every member, in order. */
    method FireLoadUserFailed(e: FailedEvent)
      modifies this`failedCalls, this`deliveries
      ensures failedCalls == old(failedCalls) + [e]
      ensures deliveries == old(deliveries) + FailedDeliveries(loadUserFailedCallBacks, e)
    {
      failedCalls := failedCalls + [e];
      for i := 0 to |loadUserFailedCallBacks|
        invariant failedCalls == old(failedCalls) + [e]
        invariant deliveries == old(deliveries) + FailedDeliveries(loadUserFailedCallBacks[..i], e)
      {
        assert FailedDeliveries(loadUserFailedCallBacks[..i + 1], e)
            == FailedDeliveries(loadUserFailedCallBacks[..i], e) + [FailedDelivery(loadUserFailedCallBacks[i].beanName, e)];
        deliveries := deliveries + [FailedDelivery(loadUserFailedCallBacks[i].beanName, e)];
      }
      assert loadUserFailedCallBacks[..|loadUserFailedCallBacks|] == loadUserFailedCallBacks;
    }

    /** MultipleLoadUserSuccessCallBackDelegate.loadUserSuccess: tells every member, in order. */
    method FireLoadUserSuccess(p: UserExtInfo)
      modifies this`successCalls, this`deliveries
      ensures successCalls == old(successCalls) + [p]
      ensures deliveries == old(deliveries) + SuccessDeliveries(loadUserSuccessCallBacks, p)
    {
      successCalls := successCalls + [p];
      for i := 0 to |loadUserSuccessCallBacks|
        invariant successCalls == old(successCalls) + [p]
        invariant deliveries == old(deliveries) + SuccessDeliveries(loadUserSuccessCallBacks[..i], p)
      {
        assert SuccessDeliveries(loadUserSuccessCallBacks[..i + 1], p)
            == SuccessDeliveries(loadUserSuccessCallBacks[..i], p) + [SuccessDelivery(loadUserSuccessCallBacks[i].beanName, p)];
        deliveries := deliveries + [SuccessDelivery(loadUserSuccessCallBacks[i].beanName, p)];
      }
      assert loadUserSuccessCallBacks[..|loadUserSuccessCallBacks|] == loadUserSuccessCallBacks;
    }

    /**
     * loadUserByUsername. `directory` is what getUserDetailInfo answers for
     * (userName, tenancyId), consulted only once the name has passed its
     * check; `loadable` says whether the configured principal class can be
     * loaded, constructed and cast.
     *
     * A missing or empty name, or no detail from the directory: the failure
     * composite is called exactly once with (userName, tenancyId, the
     * exception), the success composite is not called, and a
     * UsernameNotFoundException "<userName> not found" is thrown. Otherwise
     * the resolved principal is returned, never an exception, and the success
     * composite is called exactly once with it while the failure composite
     * is not called.
     */
    method LoadUserByUsername(userName: Option<string>, tenancyId: int, directory: Option<UserDetail>,
                              loadable: string -> bool) returns (r: Result<UserExtInfo, NotFound>)
      requires Valid() && initialized
      requires domainDefine.domainCode != ""
      modifies this`failedCalls, this`successCalls, this`deliveries
      ensures NameMissing(userName) || directory.None? ==>
        var e := LoadUserFailed(userName, tenancyId, NotFoundFor(userName));
        && r == Failure(NotFoundFor(userName))
        && failedCalls == old(failedCalls) + [e]
        && successCalls == old(successCalls)
        && deliveries == old(deliveries) + FailedDeliveries(loadUserFailedCallBacks, e)
      ensures !NameMissing(userName) && directory.Some? ==>
        var p := Resolve(domainDefine, loadable, userInfoCallBack, userName.value, directory.value);
        && r == Success(p)
        && successCalls == old(successCalls) + [p]
        && failedCalls == old(failedCalls)
        && deliveries == old(deliveries) + SuccessDeliveries(loadUserSuccessCallBacks, p)
    {
      var currentDomainCode := domainDefine.domainCode;
      if NameMissing(userName) {
        var t := NotFoundFor(userName);
        FireLoadUserFailed(LoadUserFailed(userName, tenancyId, t));
        return Failure(t);
      }
      if directory.None? {
        var t := NotFoundFor(userName);
        FireLoadUserFailed(LoadUserFailed(userName, tenancyId, t));
        return Failure(t);
      }
      var name, detail := userName.value, directory.value;
      var selected := SelectDomains(detail.domains, currentDomainCode, domainDefine.shareAllDomains);
      var userExtInfos := BuildViews(name, detail.user, selected);
      userExtInfos := WithStaticDomain(userExtInfos, currentDomainCode, domainDefine.staticDomainCode, name, detail.user);
      var userExtInfo := ChoosePrincipal(domainDefine.userInfoClass, loadable, userInfoCallBack,
        userExtInfos[currentDomainCode], userExtInfos);
      FireLoadUserSuccess(userExtInfo);
      return Success(userExtInfo);
    }
  }
}
