/**
 * The hash routes of the site: each page has a URL hash (the scripts page has none), and a hash
 * is mapped back to its page through a table built once from the page-to-hash table, with the
 * scripts page for any hash the table does not know.
 */
module Routes {

  /** `PAGE_TYPES`. */
  datatype PageType = Scripts | Savant | Helper | Tracker

  /** `HASH_BY_PAGE`, as `Object.entries` lists it (insertion order). */
  const HashByPage: seq<(PageType, string)> := [
    (Scripts, ""), (Savant, "savant-generator"), (Helper, "helper"), (Tracker, "tracker")
  ]

  /** The table the `reduce` builds from the first `|entries|` entries. */
  function PageByHash(entries: seq<(PageType, string)>): map<string, PageType>
  {
    if entries == [] then map[]
    else
      var acc := PageByHash(entries[..|entries| - 1]);
      var (pageType, hash) := entries[|entries| - 1];
      if |hash| > 0 then acc["#" + hash := pageType] else acc
  }

  /** The `reduce` that fills `PAGE_BY_HASH`, writing into its accumulator. */
  method BuildPageByHash(entries: seq<(PageType, string)>) returns (acc: map<string, PageType>)
    ensures acc == PageByHash(entries)
  {
    acc := map[];
    var i := 0;
    while i < |entries|
      invariant 0 <= i <= |entries|
      invariant acc == PageByHash(entries[..i])
    {
      var (pageType, hash) := entries[i];
      assert entries[..i + 1][..i] == entries[..i];
      if |hash| > 0 {
        acc := acc["#" + hash := pageType];
      }
      i := i + 1;
    }
    assert entries[..i] == entries;
  }

  /** Every key of the table is `#` followed by a non-empty hash of one of the entries. */
  lemma {:induction false} PageByHashKeys(entries: seq<(PageType, string)>, key: string)
    requires key in PageByHash(entries)
    ensures |key| > 1 && key[0] == '#'
    ensures exists i | 0 <= i < |entries| :: key == "#" + entries[i].1 && entries[i].0 == PageByHash(entries)[key]
  {
    var prefix := entries[..|entries| - 1];
    var last := entries[|entries| - 1];
    if |last.1| > 0 && key == "#" + last.1 {
      assert key == "#" + entries[|entries| - 1].1;
    } else {
      PageByHashKeys(prefix, key);
      var i :| 0 <= i < |prefix| && key == "#" + prefix[i].1 && prefix[i].0 == PageByHash(prefix)[key];
      assert entries[i] == prefix[i];
    }
  }

  /** `PAGE_BY_HASH`. */
  const PageByHashTable: map<string, PageType> := PageByHash(HashByPage)

  lemma PageByHashTableValue()
    ensures PageByHashTable == map["#savant-generator" := Savant, "#helper" := Helper, "#tracker" := Tracker]
  {
    var e1, e2, e3 := HashByPage[..1], HashByPage[..2], HashByPage[..3];
    assert e1[..0] == [] && e2[..1] == e1 && e3[..2] == e2 && HashByPage[..3] == e3;
    assert PageByHash(e1) == map[];
    assert e2[1] == (Savant, "savant-generator") && e3[2] == (Helper, "helper") && HashByPage[3] == (Tracker, "tracker");
    assert "#" + "savant-generator" == "#savant-generator" && "#" + "helper" == "#helper" && "#" + "tracker" == "#tracker";
    assert PageByHash(e2) == map["#savant-generator" := Savant];
    assert PageByHash(e3) == map["#savant-generator" := Savant, "#helper" := Helper];
  }

  /** `hashFromPageType`. */
  function HashFromPageType(page: PageType): string {
    match page
    case Scripts => ""
    case Savant => "savant-generator"
    case Helper => "helper"
    case Tracker => "tracker"
  }

  /**
   * The properties a plain object literal inherits from `Object.prototype`. None of them is
   * `null` or `undefined`, so indexing the table with one of these names gives its value.
   */
  const ObjectPrototypeKeys: set<string> := {
    "constructor", "hasOwnProperty", "isPrototypeOf", "propertyIsEnumerable", "toString", "valueOf",
    "toLocaleString", "__proto__", "__defineGetter__", "__defineSetter__", "__lookupGetter__", "__lookupSetter__"
  }

  /** What `PAGE_BY_HASH[hash] ?? PAGE_TYPES.SCRIPTS` evaluates to: a page, or an inherited member. */
  datatype HashLookup = PageOf(page: PageType) | InheritedMember(name: string)

  /**
   * `pageTypeFromHash`: the page of a known hash, the member inherited from `Object.prototype`
   * for one of its property names, the scripts page otherwise.
   */
  function PageTypeFromHash(hash: string): HashLookup {
    if hash in PageByHashTable then PageOf(PageByHashTable[hash])
    else if hash in ObjectPrototypeKeys then InheritedMember(hash)
    else PageOf(Scripts)
  }

  /** The table agrees with `HASH_BY_PAGE`. */
  lemma HashByPageMatches(page: PageType)
    ensures (page, HashFromPageType(page)) in HashByPage
  {
  }

  /** Pages have different hashes. */
  lemma HashesDistinct(p: PageType, q: PageType)
    requires p != q
    ensures HashFromPageType(p) != HashFromPageType(q)
  {
  }

  /** The hash of a page, as the browser shows it (`#` then the hash), leads back to that page. */
  lemma PageRoundTrip(page: PageType)
    ensures PageTypeFromHash("#" + HashFromPageType(page)) == PageOf(page)
  {
    PageByHashTableValue();
    match page {
      case Scripts => assert "#" + "" == "#";
      case Savant => assert "#" + "savant-generator" == "#savant-generator";
      case Helper => assert "#" + "helper" == "#helper";
      case Tracker => assert "#" + "tracker" == "#tracker";
    }
  }

  /** The table never maps to the scripts page, and all its keys start with `#`. */
  lemma TableShape(key: string)
    requires key in PageByHashTable
    ensures PageByHashTable[key] != Scripts
    ensures |key| > 1 && key[0] == '#'
  {
    PageByHashKeys(HashByPage, key);
    PageByHashTableValue();
  }

  /**
   * Any hash that is not `#` followed by a page's hash, nor the name of a property inherited from
   * `Object.prototype`, leads to the scripts page.
   */
  lemma UnknownHashIsScripts(hash: string)
    requires forall page: PageType :: hash != "#" + HashFromPageType(page)
    requires hash !in ObjectPrototypeKeys
    ensures PageTypeFromHash(hash) == PageOf(Scripts)
  {
    PageByHashTableValue();
    assert hash != "#" + HashFromPageType(Savant) && hash != "#" + HashFromPageType(Helper)
      && hash != "#" + HashFromPageType(Tracker);
  }

  /** An inherited property name is not a page: the lookup gives the inherited member instead of the scripts page. */
  lemma InheritedNameIsNoPage(hash: string)
    requires hash in ObjectPrototypeKeys
    ensures PageTypeFromHash(hash) == InheritedMember(hash)
  {
    PageByHashTableValue();
  }

  /** What the page reads, `location.hash`, is empty or starts with `#`, and always leads to a page. */
  lemma LocationHashIsPage(hash: string)
    requires hash == "" || hash[0] == '#'
    ensures PageTypeFromHash(hash).PageOf?
  {
    PageByHashTableValue();
    assert forall key | key in ObjectPrototypeKeys :: key != "" && key[0] != '#';
  }
}
