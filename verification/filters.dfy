/**
 * The query filters of the two competition-list requests: a fixed base per
 * request followed by the currency, product and group filters that the
 * settings switch on, joined into a query string.
 */
module Filters {
  import opened Types
  import Seqs

  /** The settings the filters read; `currency` is None when it is not a string. */
  datatype QuerySettings = QuerySettings(
    language: string,
    currency: Option<string>,
    gameId: string,
    enforceGameLookup: bool,
    groups: string,
    memberId: string)

  const CurrencyKey := "_uomKey="
  const ProductKey := "options.products.productRefId="
  const GroupsKey := "options.limitEntrantsTo="

  predicate StartsWith(f: string, key: string)
  {
    |key| <= |f| && f[..|key|] == key
  }

  /** The keys tell themselves apart by their first and ninth characters. */
  lemma KeyMarks(f: string)
    ensures StartsWith(f, CurrencyKey) ==> f[0] == '_' && f[1] == 'u'
    ensures StartsWith(f, ProductKey) ==> f[0] == 'o' && f[8] == 'p'
    ensures StartsWith(f, GroupsKey) ==> f[0] == 'o' && f[8] == 'l'
  {
    if StartsWith(f, CurrencyKey) {
      assert f[0] == f[..|CurrencyKey|][0] == CurrencyKey[0];
      assert f[1] == f[..|CurrencyKey|][1] == CurrencyKey[1];
    }
    if StartsWith(f, ProductKey) {
      assert f[0] == f[..|ProductKey|][0] == ProductKey[0];
      assert f[8] == f[..|ProductKey|][8] == ProductKey[8];
    }
    if StartsWith(f, GroupsKey) {
      assert f[0] == f[..|GroupsKey|][0] == GroupsKey[0];
      assert f[8] == f[..|GroupsKey|][8] == GroupsKey[8];
    }
  }

  lemma KeyStarts(key: string, value: string)
    ensures StartsWith(key + value, key)
  {
    assert (key + value)[..|key|] == key;
  }

  predicate UsesCurrency(s: QuerySettings)
  {
    s.currency.Some? && |s.currency.value| > 0
  }

  predicate UsesProduct(s: QuerySettings)
  {
    |s.gameId| > 0 && s.enforceGameLookup
  }

  /** Group limits apply to anonymous lookups only. */
  predicate UsesGroups(s: QuerySettings)
  {
    |s.groups| > 0 && |s.memberId| == 0
  }

  /** `r` carries each conditional filter exactly when `s` switches it on. */
  ghost predicate KeyedBySettings(s: QuerySettings, r: seq<string>)
  {
    && (UsesCurrency(s) <==> exists f :: f in r && StartsWith(f, CurrencyKey))
    && (UsesProduct(s) <==> exists f :: f in r && StartsWith(f, ProductKey))
    && (UsesGroups(s) <==> exists f :: f in r && StartsWith(f, GroupsKey))
  }

  /** The three conditional filters, in the order they are pushed. */
  function OptionalFilters(s: QuerySettings): (r: seq<string>)
    ensures |r| <= 3
    ensures UsesCurrency(s) ==> CurrencyKey + s.currency.value in r
    ensures UsesProduct(s) ==> ProductKey + s.gameId in r
    ensures UsesGroups(s) ==> GroupsKey + s.groups in r
  {
    (if UsesCurrency(s) then [CurrencyKey + s.currency.value] else [])
      + (if UsesProduct(s) then [ProductKey + s.gameId] else [])
      + (if UsesGroups(s) then [GroupsKey + s.groups] else [])
  }

  /** Each conditional filter is present exactly when its setting switches it on. */
  lemma OptionalFiltersByKey(s: QuerySettings)
    ensures KeyedBySettings(s, OptionalFilters(s))
  {
    var r := OptionalFilters(s);
    if UsesCurrency(s) { KeyStarts(CurrencyKey, s.currency.value); }
    if UsesProduct(s) { KeyStarts(ProductKey, s.gameId); }
    if UsesGroups(s) { KeyStarts(GroupsKey, s.groups); }
    forall f | f in r
      ensures StartsWith(f, CurrencyKey) ==> UsesCurrency(s)
      ensures StartsWith(f, ProductKey) ==> UsesProduct(s)
      ensures StartsWith(f, GroupsKey) ==> UsesGroups(s)
    {
      KeyMarks(f);
      if UsesCurrency(s) && f == CurrencyKey + s.currency.value {
        assert f[0] == CurrencyKey[0];
      } else if UsesProduct(s) && f == ProductKey + s.gameId {
        assert f[0] == ProductKey[0] && f[8] == ProductKey[8];
      } else {
        assert UsesGroups(s) && f == GroupsKey + s.groups;
        assert f[0] == GroupsKey[0] && f[8] == GroupsKey[8];
      }
    }
  }

  function AvailableBase(language: string): seq<string>
  {
    ["statusCode>==3", "statusCode<==5", "_sortByFields=options.scheduledDates.end:desc", "_lang=" + language, "_limit=999"]
  }

  function FinishedBase(language: string): seq<string>
  {
    ["statusCode=7", "_limit=10", "_sortByFields=options.scheduledDates.end:desc", "_lang=" + language]
  }

  /** The available-competitions request: statuses 3 to 5, newest end first, up to 999. */
  function AvailableFilters(s: QuerySettings): (r: seq<string>)
    ensures 5 <= |r| <= 8
    ensures r[..5] == AvailableBase(s.language) && r[5..] == OptionalFilters(s)
  {
    AvailableBase(s.language) + OptionalFilters(s)
  }

  /** The finished-competitions request: status 7, newest end first, up to 10. */
  function FinishedFilters(s: QuerySettings): (r: seq<string>)
    ensures 4 <= |r| <= 7
    ensures r[..4] == FinishedBase(s.language) && r[4..] == OptionalFilters(s)
  {
    FinishedBase(s.language) + OptionalFilters(s)
  }

  lemma NoKey(f: string)
    requires |f| >= 2 && (f[0] == 's' || f[1] == 'l' || f[1] == 's')
    ensures !StartsWith(f, CurrencyKey) && !StartsWith(f, ProductKey) && !StartsWith(f, GroupsKey)
  {
    KeyMarks(f);
  }

  /**
   * No base filter starts with a conditional filter's key, so a request
   * carries a currency, product or group filter exactly when the settings
   * switch it on.
   */
  lemma FiltersByKey(s: QuerySettings)
    ensures KeyedBySettings(s, AvailableFilters(s)) && KeyedBySettings(s, FinishedFilters(s))
  {
    OptionalFiltersByKey(s);
    var a, b := AvailableBase(s.language), FinishedBase(s.language);
    assert "statusCode>==3"[0] == 's' && "statusCode<==5"[0] == 's' && "statusCode=7"[0] == 's';
    assert "_sortByFields=options.scheduledDates.end:desc"[1] == 's';
    assert "_limit=999"[1] == 'l' && "_limit=10"[1] == 'l' && ("_lang=" + s.language)[1] == 'l';
    forall f | f in a + b
      ensures !StartsWith(f, CurrencyKey) && !StartsWith(f, ProductKey) && !StartsWith(f, GroupsKey)
    {
      NoKey(f);
    }
    var o := OptionalFilters(s);
    assert forall f :: f in a + o <==> f in a || f in o;
    assert forall f :: f in b + o <==> f in b || f in o;
  }

  /** The query string appended to the URL: empty for no filters. */
  function QueryString(filters: seq<string>): (r: string)
    ensures |filters| == 0 <==> r == ""
    ensures |filters| > 0 ==> r[0] == '?' && r[1..] == Seqs.Join(filters, "&")
  {
    if |filters| > 0 then "?" + Seqs.Join(filters, "&") else ""
  }
}
