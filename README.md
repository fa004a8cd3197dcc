# UniAuth multi-tenancy user details, modelled in Dafny

This project models the login-time identity resolution of UniAuth's
`ss-client`: `SSMultiTenancyUserDetailService`. For one login it turns the
user and domain data that the remote directory returns into the principal
(`UserExtInfo`) for the current tenancy domain, and it tells the registered
success or failure callbacks. At startup, `afterPropertiesSet` orders those
callbacks.

Modules, one per component of the service:

- `Wrappers` (`wrappers.dfy`): `Option` for Java's nullable references and `Result` for a thrown exception.
- `PermissionMaps` (`permission_maps.dfy`): permission mappings (`map<string, set<T>>`) and the generic `mergePermMap`. It is one loop method, proved equal to the function `Merge`. Lemmas give its set-theoretic properties and those of its left fold over a role list.
- `UniAuthModel` (`uniauth_model.dfy`): the data records. `Permission`, `Role`, `Domain`, `User` and `UserDetail` stand for the DTOs. `DomainDefine` is the configuration. `UserExtInfoParam` is one domain's view, `UserExtInfo` is the principal and `NotFound` stands for `UsernameNotFoundException`.
- `DomainAggregation` (`domain_aggregation.dfy`): domain selection (the loop with `break`), the role loop that builds one domain's view, and the loop that fills `userExtInfos`. Each loop is a method proved equal to a specification function, and lemmas state what those functions mean.
- `PrincipalFactory` (`principal_factory.dfy`): the static-domain fallback, `String.trim`, the choice between the default and the custom principal, and the whole resolution `Resolve`, with lemmas for the default mode, share-all mode and the no-match case.
- `CallbackOrder` (`callback_order.dfy`): `Collections.sort` with Spring's `OrderComparator`, modelled as a stable insertion sort. It is proved sorted, a permutation and stable. A further proof shows that a stable sort has only one possible result.
- `UserDetailService` (`user_detail_service.dfy`): the class. Its fields hold the two ordered callback lists and logs of every callback invocation. Its methods are `AfterPropertiesSet`, the two composite fan-outs and `LoadUserByUsername`.
- `Scenarios` (`scenarios.dfy`): concrete logins worked through the model.

Collaborators become inputs:

- The directory's answer is an `Option<UserDetail>` argument.
- Loading the configured principal class is a predicate `loadable` over its name. It covers `Class.forName`, the twelve-argument constructor and the cast.
- The optional `UserInfoCallBack.fill` hook is a function from the fields of the custom instance to the fields it leaves there. It returns `None` when it throws. The instance keeps its class, so the hook cannot turn it into a principal of another class.
- The callback beans are given as a sequence in the order the application context lists them.

Two details of the code that the model keeps:

- `OrderComparator` puts `PriorityOrdered` beans before all others, and only then compares order values.
- The custom principal is built from the current domain's view alone. It is not built from the map of all views.

## Model

| member | source | states |
|---|---|---|
| `PermissionMaps.MergePermMap` | ss-client/src/main/java/com/dianrong/common/uniauth/client/custom/multitenancy/SSMultiTenancyUserDetailService.java:180-194 | the entry-by-entry loop leaves exactly `Merge(target, source)` |
| `PermissionMaps.MergeAt` | ss-client/src/main/java/com/dianrong/common/uniauth/client/custom/multitenancy/SSMultiTenancyUserDetailService.java:180-194 | the merged keys are the union of target and source keys; the values under a key are the union of both sides' values |
| `PermissionMaps.MergeKeepsTarget` | ss-client/src/main/java/com/dianrong/common/uniauth/client/custom/multitenancy/SSMultiTenancyUserDetailService.java:188-192 | no key is removed, and a key only the target has keeps its value set |
| `PermissionMaps.MergeIdempotent` | ss-client/src/main/java/com/dianrong/common/uniauth/client/custom/multitenancy/SSMultiTenancyUserDetailService.java:188-192 | merging the same source a second time leaves the result of the first merge |
| `PermissionMaps.MergeCommutative` | ss-client/src/main/java/com/dianrong/common/uniauth/client/custom/multitenancy/SSMultiTenancyUserDetailService.java:180-194 | the merged mapping is the same whichever side is the target |
| `PermissionMaps.MergeAssociative` | ss-client/src/main/java/com/dianrong/common/uniauth/client/custom/multitenancy/SSMultiTenancyUserDetailService.java:180-194 | successive merges can be regrouped |
| `PermissionMaps.MergeAllMember` | ss-client/src/main/java/com/dianrong/common/uniauth/client/custom/multitenancy/SSMultiTenancyUserDetailService.java:121-129 | after folding the merge over a list of mappings from empty, a key is present iff some mapping has it, and a value is under it iff some mapping lists it there |
| `DomainAggregation.SelectDomains` | ss-client/src/main/java/com/dianrong/common/uniauth/client/custom/multitenancy/SSMultiTenancyUserDetailService.java:102-115 | the scan with `break` yields exactly `Selected(domains, code, shareAll)` |
| `DomainAggregation.FirstWithCodeIs` | ss-client/src/main/java/com/dianrong/common/uniauth/client/custom/multitenancy/SSMultiTenancyUserDetailService.java:105-112 | at most one domain; none iff no domain has the code; otherwise the first domain in list order that has it |
| `DomainAggregation.SelectedIs` | ss-client/src/main/java/com/dianrong/common/uniauth/client/custom/multitenancy/SSMultiTenancyUserDetailService.java:102-115 | default mode: at most one domain, the first with the current code, none iff no match; share-all mode: the input list, same length and order |
| `DomainAggregation.DomainViewRecord` | ss-client/src/main/java/com/dianrong/common/uniauth/client/custom/multitenancy/SSMultiTenancyUserDetailService.java:119-133 | one authority per role, the role codes in role order; password "fake_password"; all four account flags true; user, id and domain recorded |
| `DomainAggregation.DomainViewCodes` | ss-client/src/main/java/com/dianrong/common/uniauth/client/custom/multitenancy/SSMultiTenancyUserDetailService.java:117-129 | a permission type is in the domain's code mapping iff some role grants it, and a code is under it iff some role lists it there |
| `DomainAggregation.DomainViewObjects` | ss-client/src/main/java/com/dianrong/common/uniauth/client/custom/multitenancy/SSMultiTenancyUserDetailService.java:118-129 | the same for the mapping of permission objects |
| `DomainAggregation.BuildDomainView` | ss-client/src/main/java/com/dianrong/common/uniauth/client/custom/multitenancy/SSMultiTenancyUserDetailService.java:117-133 | the role loop yields exactly `DomainView` (authorities in role order; both maps are the left fold of the merge over the roles from empty) |
| `DomainAggregation.ViewsKeys` | ss-client/src/main/java/com/dianrong/common/uniauth/client/custom/multitenancy/SSMultiTenancyUserDetailService.java:116-135 | the views map has a key for exactly the selected domains' codes |
| `DomainAggregation.ViewsAt` | ss-client/src/main/java/com/dianrong/common/uniauth/client/custom/multitenancy/SSMultiTenancyUserDetailService.java:134 | under each code is the view of the last selected domain with that code (a later domain overwrites an earlier one) |
| `DomainAggregation.BuildViews` | ss-client/src/main/java/com/dianrong/common/uniauth/client/custom/multitenancy/SSMultiTenancyUserDetailService.java:116-135 | the domain loop yields exactly `Views(userName, user, selected)` |
| `PrincipalFactory.WithStaticDomain` | ss-client/src/main/java/com/dianrong/common/uniauth/client/custom/multitenancy/SSMultiTenancyUserDetailService.java:137-146 | afterwards the current code is always present and nothing else is added; existing entries are unchanged; a synthesised entry has no authorities, empty permission maps and the static domain code, not the current one |
| `PrincipalFactory.TrimEmptyIffBlank` | ss-client/src/main/java/com/dianrong/common/uniauth/client/custom/multitenancy/SSMultiTenancyUserDetailService.java:150 | `"".equals(s.trim())` holds iff every character of `s` is at or below `' '` |
| `PrincipalFactory.ChoosePrincipalIs` | ss-client/src/main/java/com/dianrong/common/uniauth/client/custom/multitenancy/SSMultiTenancyUserDetailService.java:148-171 | always a principal; a null or blank class name gives the default; a class that cannot be loaded, constructed or cast gives the default; a throwing fill hook gives the default; otherwise an instance of the configured class holding the current view, as the hook filled it, so a loadable class with no hook or a hook that returns gives a principal of that class |
| `PrincipalFactory.ChoosePrincipal` | ss-client/src/main/java/com/dianrong/common/uniauth/client/custom/multitenancy/SSMultiTenancyUserDetailService.java:148-171 | a default principal always records the current view and the whole views map; a custom principal appears only when a class name is configured and loads, and its class is the configured one |
| `PrincipalFactory.ResolvedViews` | ss-client/src/main/java/com/dianrong/common/uniauth/client/custom/multitenancy/SSMultiTenancyUserDetailService.java:137-146 | the views map of a login always holds the current domain code |
| `PrincipalFactory.ResolvedViewsOfMatch` | ss-client/src/main/java/com/dianrong/common/uniauth/client/custom/multitenancy/SSMultiTenancyUserDetailService.java:102-146 | default mode with a matching domain: exactly one view, under the current code, built from the first matching domain |
| `PrincipalFactory.ResolvedViewsOfNoMatch` | ss-client/src/main/java/com/dianrong/common/uniauth/client/custom/multitenancy/SSMultiTenancyUserDetailService.java:102-146 | default mode with no matching domain: exactly one view, the static view, stored under the real current code |
| `PrincipalFactory.ResolvedViewsShareAll` | ss-client/src/main/java/com/dianrong/common/uniauth/client/custom/multitenancy/SSMultiTenancyUserDetailService.java:113-146 | share-all mode: keys are the current code plus every domain's code; each code's view is built from the last domain with that code alone (no cross-domain leakage) |
| `PrincipalFactory.ResolveDefault` | ss-client/src/main/java/com/dianrong/common/uniauth/client/custom/multitenancy/SSMultiTenancyUserDetailService.java:150-151 | without a custom class the principal is `UserExtInfo.build(views[current], views)` |
| `PrincipalFactory.Resolve` | ss-client/src/main/java/com/dianrong/common/uniauth/client/custom/multitenancy/SSMultiTenancyUserDetailService.java:97-171 | the principal of a found user is either the default over the resolved views, holding the current domain's view, or an instance of the configured class |
| `CallbackOrder.InsertStable` | ss-client/src/main/java/com/dianrong/common/uniauth/client/custom/multitenancy/SSMultiTenancyUserDetailService.java:213 | one insertion keeps the list sorted, adds exactly the new callback, and appends it after every callback with the same key |
| `CallbackOrder.SortByOrder` | ss-client/src/main/java/com/dianrong/common/uniauth/client/custom/multitenancy/SSMultiTenancyUserDetailService.java:213 | the sorted list is in non-decreasing `OrderComparator` order, is a permutation of the input, and keeps input order among equal keys |
| `CallbackOrder.StableSortUnique` | ss-client/src/main/java/com/dianrong/common/uniauth/client/custom/multitenancy/SSMultiTenancyUserDetailService.java:222 | two sorted lists with the same callbacks under every key, in the same order, are equal, so the model's sort agrees with Java's stable merge sort |
| `UniAuthModel.NotFoundFor` | ss-client/src/main/java/com/dianrong/common/uniauth/client/custom/multitenancy/SSMultiTenancyUserDetailService.java:81 | the exception message is the name followed by " not found", with "null" for a null name |
| `UserDetailService.NameMissing` | ss-client/src/main/java/com/dianrong/common/uniauth/client/custom/multitenancy/SSMultiTenancyUserDetailService.java:80 | a name passes the check iff it is present and non-empty |
| `UserDetailService.SSMultiTenancyUserDetailService.constructor` | ss-client/src/main/java/com/dianrong/common/uniauth/client/custom/multitenancy/SSMultiTenancyUserDetailService.java:49-73 | the injected configuration and fill hook are recorded, no callback list is set yet, and nothing has been invoked |
| `UserDetailService.SSMultiTenancyUserDetailService.AfterPropertiesSet` | ss-client/src/main/java/com/dianrong/common/uniauth/client/custom/multitenancy/SSMultiTenancyUserDetailService.java:205-224 | each composite's member list is a permutation of the discovered beans, in non-decreasing order, with ties in discovery order; nothing is invoked |
| `UserDetailService.SSMultiTenancyUserDetailService.FireLoadUserFailed` | ss-client/src/main/java/com/dianrong/common/uniauth/client/custom/multitenancy/SSMultiTenancyUserDetailService.java:214 | one composite failure call; every member is told, in list order |
| `UserDetailService.SSMultiTenancyUserDetailService.FireLoadUserSuccess` | ss-client/src/main/java/com/dianrong/common/uniauth/client/custom/multitenancy/SSMultiTenancyUserDetailService.java:223 | one composite success call; every member is told, in list order |
| `UserDetailService.SSMultiTenancyUserDetailService.LoadUserByUsername` | ss-client/src/main/java/com/dianrong/common/uniauth/client/custom/multitenancy/SSMultiTenancyUserDetailService.java:76-178 | a null or empty name, or no detail: "<name> not found", the failure composite called exactly once with (name, tenancy id, error), and the success composite not called; otherwise the resolved principal, never an error, with the success composite called exactly once with it and the failure composite not called |
| `Scenarios.AdminInCurrentDomain` | ss-client/src/main/java/com/dianrong/common/uniauth/client/custom/multitenancy/SSMultiTenancyUserDetailService.java:102-151 | one matching domain with role ROLE_ADMIN granting tag -> {read, write}: authorities ["ROLE_ADMIN"], that exact mapping, one view |
| `Scenarios.OnlyOtherDomain` | ss-client/src/main/java/com/dianrong/common/uniauth/client/custom/multitenancy/SSMultiTenancyUserDetailService.java:137-151 | only a non-current domain: the current view is empty, stored under "techops", with the static domain code |
| `Scenarios.TwoDomainsShared` | ss-client/src/main/java/com/dianrong/common/uniauth/client/custom/multitenancy/SSMultiTenancyUserDetailService.java:113-151 | share-all mode over two domains: two views, each with only its own domain's permissions |
| `Scenarios.EmptyAccount` | ss-client/src/main/java/com/dianrong/common/uniauth/client/custom/multitenancy/SSMultiTenancyUserDetailService.java:80-83 | an empty name with failure callbacks of order 2 and 1: "not found" is thrown, and the order-1 callback is told before the order-2 one |

## Left out

- techops/src/main/java/com/dianrong/common/techops/action/TagAction.java: each endpoint hands its request to the remote facade, and its access checks are Spring Security expressions. There is no logic of its own.
- The directory call (`getUserDetailInfo`) is network I/O. Its answer is an input. A transport error, which the source lets propagate, is not modelled.
- Reflection (`Class.forName`, `getConstructor`, `newInstance`, the cast) and `UserInfoCallBack.fill` are foreign code. They are modelled as the oracles `loadable` and `fill`. A custom principal is the value `Custom(className, current view)`; the hook maps that view to the filled one.
- `UserExtInfo.build` is not part of this model. It is taken to record the current view and the whole views map (`Default`).
- `CheckDomainDefine.checkDomainDefine` is not part of this model. It becomes the precondition that the current domain code is non-empty.
- `DomainDefine.getStaticDomainCode()` is not part of this model. Its value is the `staticDomainCode` field of the configuration.
- `setApplicationContext`, bean discovery by type and `getBean` are framework code. The discovered beans are given as a sequence. The only part of `OrderComparator` modelled is what it reads from a bean: whether it implements `PriorityOrdered`, and its order value.
- Logging (lines 167-168) is not modelled.
- Aliasing at line 191: the source puts a role's own `Set` object into the merged map, and a later `addAll` mutates that role's set. Value semantics do not capture this. The merged maps are the same either way. If two domains shared one role object, the source could leak values between their views, and the model cannot show that.
- `MergePermMap` takes the target by value and returns the merged map. The source updates the target `HashMap` in place. The `HashMap` iteration order over the source entries is not modelled, because the result does not depend on it.
- Null references that would throw `NullPointerException` in the source are not modelled: a null user record, a null role permission map. A null domain code is not modelled either. It would not throw: in default mode (line 108) `currentDomainCode.equals(null)` is false and that domain is skipped, and in share-all mode (line 134) `HashMap.put(null, ...)` keeps that domain's view under the null key. A null domain list or role list is modelled as an empty sequence, which gives the same outcome as the source's null checks.
- Ids and the tenancy id are unbounded integers. The source's `long` and `Long` take part in no arithmetic here.
- Concurrent logins are not modelled. Each call is one sequential run.
- `LoadUserByUsername`: on the found-user path the model always returns a principal, but the source can also throw there. `catch (Exception e)` at line 166 does not catch an `Error`: an `ExceptionInInitializerError` or `LinkageError` from `Class.forName` (line 154), or an `Error` from `fill` (line 163), reaches the caller and no callback is told. `new SimpleGrantedAuthority(roleCode)` at line 124 throws `IllegalArgumentException` for a null or blank role code, which also reaches the caller with no callback told; the model records the code as it is.
- `ChoosePrincipalIs`: the oracles `loadable` and `fill` only answer whether an `Exception` is thrown. An `Error` from `Class.forName` (line 154) or from `fill` (line 163) is not modelled; the source lets it propagate instead of falling back to the default principal.
- `Permission` is a datatype and so is compared by value. This assumes `PermissionDto` has value-based `equals` and `hashCode`. Under identity equality, two equal-valued permission objects from two roles would stay two elements of a merged set, while the model holds one.
