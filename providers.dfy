/** The provider list hook: the approved-provider query with its category
    restriction and limit, the join of each provider to its profile, the
    case-insensitive search, and the hook's state. */
module Providers {

  import opened Database
  import Seqs
  import JsText

  /** The limit when none is given. */
  const DefaultLimit: nat := 20

  function EffectiveLimit(limit: Option<nat>): (n: nat)
    ensures limit.None? ==> n == DefaultLimit
    ensures limit.Some? ==> n == limit.value
  {
    if limit.None? then DefaultLimit else limit.value
  }

  /** `.limit(n)`: the first `n` rows. */
  function Take<T>(s: seq<T>, n: nat): (r: seq<T>)
    ensures |r| <= n && |r| <= |s|
    ensures r == s[..|r|]
    ensures |s| <= n ==> r == s
  {
    if |s| <= n then s else s[..n]
  }

  /** The provider ids of the services in a category, in table order. */
  function CategoryProviderIds(services: seq<ProviderService>, categoryId: Id): (ids: seq<Id>)
  {
    var inCategory := Seqs.Filter(services, (s: ProviderService) => s.categoryId == categoryId);
    seq(|inCategory|, k requires 0 <= k < |inCategory| => inCategory[k].providerId)
  }

  /** The ids offered are exactly those of the providers with a service in
      the category. */
  lemma CategoryProviderIdsExact(services: seq<ProviderService>, categoryId: Id, id: Id)
    ensures id in CategoryProviderIds(services, categoryId) <==>
      exists k :: 0 <= k < |services| && services[k].categoryId == categoryId && services[k].providerId == id
  {
    var keep := (s: ProviderService) => s.categoryId == categoryId;
    var inCategory := Seqs.Filter(services, keep);
    var ids := CategoryProviderIds(services, categoryId);
    if id in ids {
      var j :| 0 <= j < |ids| && ids[j] == id;
      assert inCategory[j] in services;
      var k :| 0 <= k < |services| && services[k] == inCategory[j];
    }
    if exists k :: 0 <= k < |services| && services[k].categoryId == categoryId && services[k].providerId == id {
      var k :| 0 <= k < |services| && services[k].categoryId == categoryId && services[k].providerId == id;
      assert services[k] in inCategory;
      var j :| 0 <= j < |inCategory| && inCategory[j] == services[k];
      assert ids[j] == id;
    }
  }

  /** The query's filters: `eq('status', 'approved')`, and `in('id', ids)`
      when ids are given. */
  predicate InQuery(p: ProviderProfile, ids: Option<seq<Id>>)
  {
    p.status == Approved && (ids.None? || p.id in ids.value)
  }

  /** The rows passing the query's filters, in table order. */
  function Qualifying(table: seq<ProviderProfile>, ids: Option<seq<Id>>): (rows: seq<ProviderProfile>)
  {
    Seqs.Filter(table, (p: ProviderProfile) => InQuery(p, ids))
  }

  /** The provider query: approved providers, restricted to `ids` when given,
      from a table already ordered by rating, best first (the query's
      `order`), cut to the limit. */
  function ProviderQuery(table: seq<ProviderProfile>, ids: Option<seq<Id>>, limit: nat): (rows: seq<ProviderProfile>)
  {
    Take(Qualifying(table, ids), limit)
  }

  /** The query returns at most `limit` rows, each approved, in the
      requested ids and from the table, best rated first. */
  lemma ProviderQuerySpec(table: seq<ProviderProfile>, ids: Option<seq<Id>>, limit: nat)
    ensures |ProviderQuery(table, ids, limit)| <= limit
    ensures forall k :: 0 <= k < |ProviderQuery(table, ids, limit)| ==>
      var p := ProviderQuery(table, ids, limit)[k];
      p in table && p.status == Approved && (ids.Some? ==> p.id in ids.value)
    ensures Seqs.Descending(table, (p: ProviderProfile) => p.avgRating)
      ==> Seqs.Descending(ProviderQuery(table, ids, limit), (p: ProviderProfile) => p.avgRating)
  {
    var keep := (p: ProviderProfile) => InQuery(p, ids);
    if Seqs.Descending(table, (p: ProviderProfile) => p.avgRating) {
      Seqs.FilterKeepsDescending(table, keep, (p: ProviderProfile) => p.avgRating);
    }
  }

  /** Nothing that qualifies is lost before the limit: a row passing the
      filters, with fewer than `limit` qualifying rows ahead of it, is
      returned, and at the position given by the number of those rows. */
  lemma ProviderQueryComplete(table: seq<ProviderProfile>, ids: Option<seq<Id>>, limit: nat, i: nat)
    requires i < |table| && InQuery(table[i], ids)
    requires |Qualifying(table[..i], ids)| < limit
    ensures |Qualifying(table[..i], ids)| < |ProviderQuery(table, ids, limit)|
    ensures ProviderQuery(table, ids, limit)[|Qualifying(table[..i], ids)|] == table[i]
    ensures table[i] in ProviderQuery(table, ids, limit)
  {
    Seqs.FilterPosition(table, (p: ProviderProfile) => InQuery(p, ids), i);
  }

  /** A provider with its profile, when one was found. */
  datatype JoinedProvider = JoinedProvider(provider: ProviderProfile, profile: Option<Profile>)

  /** `profiles.find(p => p.user_id === userId)`: the first profile of the
      user, or none. */
  function FindProfile(profiles: seq<Profile>, userId: Id): (r: Option<Profile>)
    ensures r.Some? ==> exists i :: (0 <= i < |profiles| && profiles[i] == r.value
      && r.value.userId == userId && forall j :: 0 <= j < i ==> profiles[j].userId != userId)
    ensures r.None? ==> forall j :: 0 <= j < |profiles| ==> profiles[j].userId != userId
  {
    if profiles == [] then None
    else if profiles[0].userId == userId then Some(profiles[0])
    else
      var r := FindProfile(profiles[1..], userId);
      if r.Some? then
        ghost var i :| 0 <= i < |profiles[1..]| && profiles[1..][i] == r.value
          && forall j :: 0 <= j < i ==> profiles[1..][j].userId != userId;
        assert profiles[i + 1] == r.value;
        r
      else r
  }

  /** Each provider with the profile whose user id matches its own. */
  function Join(providers: seq<ProviderProfile>, profiles: seq<Profile>): (joined: seq<JoinedProvider>)
  {
    seq(|providers|, k requires 0 <= k < |providers| => JoinedProvider(providers[k], FindProfile(profiles, providers[k].userId)))
  }

  /** The join keeps the providers, their number and their order, and
      attaches to each the first profile of its user, or none when the user
      has no profile. */
  lemma JoinSpec(providers: seq<ProviderProfile>, profiles: seq<Profile>)
    ensures |Join(providers, profiles)| == |providers|
    ensures forall k :: 0 <= k < |providers| ==> Join(providers, profiles)[k].provider == providers[k]
    ensures forall k :: 0 <= k < |providers| ==>
      var profile := Join(providers, profiles)[k].profile;
      (profile.Some? ==> profile.value in profiles && profile.value.userId == providers[k].userId)
      && (profile.None? ==> forall j :: 0 <= j < |profiles| ==> profiles[j].userId != providers[k].userId)
  {
  }

  /** `includes` on an optional text, after lower-casing it. */
  predicate ContainsLower(text: Option<string>, search: string)
  {
    text.Some? && JsText.Includes(JsText.ToLower(text.value), search)
  }

  /** The search test: the lower-cased full name, bio or location contains
      the lower-cased query. */
  predicate Matches(p: JoinedProvider, search: string)
  {
    || (p.profile.Some? && ContainsLower(Some(p.profile.value.fullName), search))
    || ContainsLower(p.provider.bio, search)
    || (p.profile.Some? && ContainsLower(p.profile.value.location, search))
  }

  /** The search step: with a non-empty query, the providers that match it. */
  function SearchFilter(joined: seq<JoinedProvider>, searchQuery: Option<string>): (r: seq<JoinedProvider>)
  {
    if searchQuery.None? || searchQuery.value == "" then joined
    else Seqs.Filter(joined, (p: JoinedProvider) => Matches(p, JsText.ToLower(searchQuery.value)))
  }

  /** Without a query nothing is filtered out; with one, a provider stays
      exactly when its name, bio or location contains the query, whatever
      the letter case of either, and the list keeps its order. */
  lemma SearchFilterSpec(joined: seq<JoinedProvider>, searchQuery: Option<string>)
    ensures searchQuery.None? || searchQuery == Some("") ==> SearchFilter(joined, searchQuery) == joined
    ensures searchQuery.Some? && searchQuery.value != "" ==>
      forall p :: p in SearchFilter(joined, searchQuery) <==>
        p in joined && Matches(p, JsText.ToLower(searchQuery.value))
    ensures Seqs.IsSubsequence(SearchFilter(joined, searchQuery), joined)
    ensures searchQuery.Some? ==>
      SearchFilter(joined, Some(JsText.ToLower(searchQuery.value))) == SearchFilter(joined, searchQuery)
  {
    if searchQuery.Some? && searchQuery.value != "" {
      var keep := (p: JoinedProvider) => Matches(p, JsText.ToLower(searchQuery.value));
      forall p | p in joined && keep(p) ensures p in SearchFilter(joined, searchQuery) {
        var k :| 0 <= k < |joined| && joined[k] == p;
      }
      Seqs.FilterIsSubsequence(joined, keep);
      JsText.ToLowerIdempotent(searchQuery.value);
    } else {
      Seqs.SubsequenceReflexive(joined);
    }
  }

  /** `if (categoryId)`: a category that is given and not empty. */
  predicate HasCategory(categoryId: Option<Id>)
  {
    categoryId.Some? && categoryId.value != ""
  }

  /** The ids the provider query is restricted to: those of the category's
      services when a category is given, none otherwise. */
  function QueryIds(categoryId: Option<Id>, services: seq<ProviderService>): (ids: Option<seq<Id>>)
    ensures ids.Some? <==> HasCategory(categoryId)
  {
    if HasCategory(categoryId) then Some(CategoryProviderIds(services, categoryId.value)) else None
  }

  /** What the hook asks the provider query for: `None` when a category
      without services ends the fetch early, otherwise the id restriction
      (none without a category). */
  function IdRestriction(categoryId: Option<Id>, services: seq<ProviderService>): (r: Option<Option<seq<Id>>>)
  {
    var ids := QueryIds(categoryId, services);
    if ids.Some? && ids.value == [] then None else Some(ids)
  }

  /** The list a successful fetch shows: empty after the category short cut,
      otherwise the query's rows joined to their profiles and searched. */
  function Fetched(categoryId: Option<Id>, searchQuery: Option<string>, limit: Option<nat>,
                   services: seq<ProviderService>, table: seq<ProviderProfile>, profiles: seq<Profile>): seq<JoinedProvider>
  {
    var restriction := IdRestriction(categoryId, services);
    if restriction.None? then []
    else SearchFilter(Join(ProviderQuery(table, restriction.value, EffectiveLimit(limit)), profiles), searchQuery)
  }

  /** A category in which no service is offered gives an empty list, whatever
      the provider table holds: the provider query is never consulted. */
  lemma CategoryShortCircuit(categoryId: Id, searchQuery: Option<string>, limit: Option<nat>,
                             services: seq<ProviderService>, table: seq<ProviderProfile>, profiles: seq<Profile>)
    requires categoryId != ""
    requires forall k :: 0 <= k < |services| ==> services[k].categoryId != categoryId
    ensures Fetched(Some(categoryId), searchQuery, limit, services, table, profiles) == []
  {
    Seqs.FilterNone(services, (s: ProviderService) => s.categoryId == categoryId);
  }

  /** Everything listed is an approved provider from the table, offers a
      service in the category when one is given, matches the query when one
      is given, and there are at most `limit` of them (20 by default). */
  lemma FetchedSpec(categoryId: Option<Id>, searchQuery: Option<string>, limit: Option<nat>,
                    services: seq<ProviderService>, table: seq<ProviderProfile>, profiles: seq<Profile>)
    ensures |Fetched(categoryId, searchQuery, limit, services, table, profiles)| <= EffectiveLimit(limit)
    ensures forall k :: 0 <= k < |Fetched(categoryId, searchQuery, limit, services, table, profiles)| ==>
      var p := Fetched(categoryId, searchQuery, limit, services, table, profiles)[k];
      && p.provider in table && p.provider.status == Approved
      && (HasCategory(categoryId) ==> p.provider.id in CategoryProviderIds(services, categoryId.value))
      && (searchQuery.Some? && searchQuery.value != "" ==> Matches(p, JsText.ToLower(searchQuery.value)))
  {
    var restriction := IdRestriction(categoryId, services);
    if restriction.Some? {
      var rows := ProviderQuery(table, restriction.value, EffectiveLimit(limit));
      ProviderQuerySpec(table, restriction.value, EffectiveLimit(limit));
      SearchedRows(rows, profiles, searchQuery);
    }
  }

  /** The converse of `FetchedSpec`: an approved provider that offers a
      service in the category (when one is given), that has fewer than the
      limit of qualifying rows ahead of it, and that matches the query (when
      one is given) with the profile the join attaches, is listed. */
  lemma FetchedComplete(categoryId: Option<Id>, searchQuery: Option<string>, limit: Option<nat>,
                        services: seq<ProviderService>, table: seq<ProviderProfile>, profiles: seq<Profile>, i: nat)
    requires i < |table| && InQuery(table[i], QueryIds(categoryId, services))
    requires |Qualifying(table[..i], QueryIds(categoryId, services))| < EffectiveLimit(limit)
    requires searchQuery.None? || searchQuery.value == ""
      || Matches(JoinedProvider(table[i], FindProfile(profiles, table[i].userId)), JsText.ToLower(searchQuery.value))
    ensures JoinedProvider(table[i], FindProfile(profiles, table[i].userId))
      in Fetched(categoryId, searchQuery, limit, services, table, profiles)
  {
    var ids := QueryIds(categoryId, services);
    assert IdRestriction(categoryId, services) == Some(ids);
    var rows := ProviderQuery(table, ids, EffectiveLimit(limit));
    ProviderQueryComplete(table, ids, EffectiveLimit(limit), i);
    var k := |Qualifying(table[..i], ids)|;
    var joined := Join(rows, profiles);
    assert joined[k] == JoinedProvider(table[i], FindProfile(profiles, table[i].userId));
    SearchFilterSpec(joined, searchQuery);
  }

  /** What the join and the search keep: at most the rows, each listed
      provider one of them and matching the query when one is given. */
  lemma SearchedRows(rows: seq<ProviderProfile>, profiles: seq<Profile>, searchQuery: Option<string>)
    ensures |SearchFilter(Join(rows, profiles), searchQuery)| <= |rows|
    ensures forall k :: 0 <= k < |SearchFilter(Join(rows, profiles), searchQuery)| ==>
      var p := SearchFilter(Join(rows, profiles), searchQuery)[k];
      && p.provider in rows
      && (searchQuery.Some? && searchQuery.value != "" ==> Matches(p, JsText.ToLower(searchQuery.value)))
  {
    var joined := Join(rows, profiles);
    JoinSpec(rows, profiles);
    SearchFilterSpec(joined, searchQuery);
    var r := SearchFilter(joined, searchQuery);
    forall k | 0 <= k < |r| ensures r[k].provider in rows {
      assert r[k] in joined;
      var j :| 0 <= j < |joined| && joined[j] == r[k];
    }
  }

  /** The hook's state. */
  class ProviderList {
    var providers: seq<JoinedProvider>
    var loading: bool
    var error: Option<string>

    constructor ()
      ensures providers == [] && loading && error.None?
    {
      providers, loading, error := [], true, None;
    }

    /** `fetchProviders`, with the three queries' answers as inputs: the
        services table, the provider table or the provider query's error,
        and the profiles table. A category without services empties the list
        and stops; a provider query error is recorded and leaves the list as
        it was; otherwise the list is replaced. The error is never cleared,
        and loading ends in every case. */
    method Fetch(categoryId: Option<Id>, searchQuery: Option<string>, limit: Option<nat>,
                 services: seq<ProviderService>, table: seq<ProviderProfile>, providerError: Option<string>,
                 profiles: seq<Profile>)
      modifies this
      ensures !loading
      ensures IdRestriction(categoryId, services).None? ==> providers == [] && error == old(error)
      ensures IdRestriction(categoryId, services).Some? && providerError.Some? ==>
        providers == old(providers) && error == providerError
      ensures IdRestriction(categoryId, services).Some? && providerError.None? ==>
        providers == Fetched(categoryId, searchQuery, limit, services, table, profiles) && error == old(error)
    {
      loading := true;
      var restriction := IdRestriction(categoryId, services);
      if restriction.None? {
        providers := [];
        loading := false;
        return;
      }
      if providerError.Some? {
        error := providerError;
        loading := false;
        return;
      }
      var rows := ProviderQuery(table, restriction.value, EffectiveLimit(limit));
      if rows == [] {
        providers := [];
        loading := false;
        return;
      }
      providers := SearchFilter(Join(rows, profiles), searchQuery);
      loading := false;
    }
  }
}
