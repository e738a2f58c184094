/** The page store of a build: a JavaScript `Map` from web path to page.
    A `Map` remembers the order in which keys were first set; setting a key
    again replaces its page and keeps its place. */
module PageStore {
  import opened Pages

  /** The contents of the map: keys in first-insertion order and the page
      stored under each. */
  datatype Store = Store(keys: seq<string>, pages: map<string, Page>)

  /** Each key is listed once, and exactly the listed keys have a page. */
  ghost predicate WellFormed(s: Store)
  {
    && (forall i, j :: 0 <= i < j < |s.keys| ==> s.keys[i] != s.keys[j])
    && (forall key :: key in s.pages <==> key in s.keys)
  }

  const Empty: Store := Store([], map[])

  /** `map.set(key, page)`. */
  function Put(s: Store, key: string, page: Page): (r: Store)
    requires WellFormed(s)
    ensures WellFormed(r)
  {
    if key in s.pages then Store(s.keys, s.pages[key := page])
    else Store(s.keys + [key], s.pages[key := page])
  }

  /** `set` for each pair in turn. */
  function PutAll(s: Store, writes: seq<(string, Page)>): (r: Store)
    requires WellFormed(s)
    ensures WellFormed(r)
    decreases |writes|
  {
    if writes == [] then s
    else PutAll(Put(s, writes[0].0, writes[0].1), writes[1..])
  }

  /** `Array.from(map.values())`: the pages in key order. */
  function Values(s: Store): (r: seq<Page>)
    requires WellFormed(s)
    ensures |r| == |s.keys|
    ensures forall i :: 0 <= i < |r| ==> s.keys[i] in s.pages && r[i] == s.pages[s.keys[i]]
  {
    seq(|s.keys|, i requires 0 <= i < |s.keys| => s.pages[s.keys[i]])
  }

  /** A set makes the key map to the new page and leaves every other key's
      page alone. */
  lemma PutLookup(s: Store, key: string, page: Page, other: string)
    requires WellFormed(s)
    ensures key in Put(s, key, page).pages && Put(s, key, page).pages[key] == page
    ensures other != key ==> (other in Put(s, key, page).pages <==> other in s.pages)
    ensures other != key && other in s.pages ==> Put(s, key, page).pages[other] == s.pages[other]
  {
  }

  /** Setting a key that is already there keeps the order of the keys; a new
      key goes last. */
  lemma PutKeepsPosition(s: Store, key: string, page: Page)
    requires WellFormed(s)
    ensures key in s.keys ==> Put(s, key, page).keys == s.keys
    ensures key !in s.keys ==> Put(s, key, page).keys == s.keys + [key]
  {
  }

  /** The last set of a key decides its page: setting it twice is setting
      it once with the second page. */
  lemma LastWriteWins(s: Store, key: string, first: Page, second: Page)
    requires WellFormed(s)
    ensures Put(Put(s, key, first), key, second) == Put(s, key, second)
  {
    var once := Put(s, key, first);
    assert key in once.pages;
    assert once.keys == (if key in s.pages then s.keys else s.keys + [key]);
    assert s.pages[key := first][key := second] == s.pages[key := second];
  }

  /** After a batch of sets, a key has the page of the batch's last write
      to it, or its old page when the batch does not write it. */
  lemma {:induction false} PutAllLookup(s: Store, writes: seq<(string, Page)>, key: string)
    requires WellFormed(s)
    ensures var r := PutAll(s, writes);
      (key in r.pages <==> key in s.pages || exists i :: 0 <= i < |writes| && writes[i].0 == key)
    ensures var r := PutAll(s, writes);
      forall i :: (0 <= i < |writes| && writes[i].0 == key
        && (forall j :: i < j < |writes| ==> writes[j].0 != key)) ==> r.pages[key] == writes[i].1
    ensures var r := PutAll(s, writes);
      (forall i :: 0 <= i < |writes| ==> writes[i].0 != key) && key in s.pages ==> r.pages[key] == s.pages[key]
    decreases |writes|
  {
    if writes != [] {
      var s' := Put(s, writes[0].0, writes[0].1);
      PutAllLookup(s', writes[1..], key);
      PutLookup(s, writes[0].0, writes[0].1, key);
      var r := PutAll(s, writes);
      forall i | 0 <= i < |writes| && writes[i].0 == key && (forall j :: i < j < |writes| ==> writes[j].0 != key)
        ensures r.pages[key] == writes[i].1
      {
        if i > 0 {
          assert writes[1..][i - 1] == writes[i];
          assert forall j :: i - 1 < j < |writes| - 1 ==> writes[1..][j].0 != key by {
            forall j | i - 1 < j < |writes| - 1 ensures writes[1..][j].0 != key {
              assert writes[1..][j] == writes[j + 1];
            }
          }
        } else {
          assert forall j :: 0 <= j < |writes| - 1 ==> writes[1..][j].0 != key by {
            forall j | 0 <= j < |writes| - 1 ensures writes[1..][j].0 != key {
              assert writes[1..][j] == writes[j + 1];
            }
          }
        }
      }
      if key !in s.pages && key != writes[0].0 {
        assert (exists i :: 0 <= i < |writes[1..]| && writes[1..][i].0 == key)
          <==> (exists i :: 0 <= i < |writes| && writes[i].0 == key) by {
          if exists i :: 0 <= i < |writes| && writes[i].0 == key {
            var i :| 0 <= i < |writes| && writes[i].0 == key;
            assert writes[1..][i - 1] == writes[i];
          }
        }
      }
      if key in s.pages || key == writes[0].0 {
        assert key in s'.pages;
      }
      if (forall i :: 0 <= i < |writes| ==> writes[i].0 != key) && key in s.pages {
        assert forall i :: 0 <= i < |writes| - 1 ==> writes[1..][i].0 != key by {
          forall i | 0 <= i < |writes| - 1 ensures writes[1..][i].0 != key {
            assert writes[1..][i] == writes[i + 1];
          }
        }
      }
    }
  }

  lemma PutAllNothing(s: Store)
    requires WellFormed(s)
    ensures PutAll(s, []) == s
  {
  }

  lemma PutAllOne(s: Store, key: string, page: Page)
    requires WellFormed(s)
    ensures PutAll(s, [(key, page)]) == Put(s, key, page)
  {
    var s' := Put(s, key, page);
    assert [(key, page)][1..] == [];
    PutAllNothing(s');
  }

  /** A batch of sets split in two is the first part, then the second. */
  lemma {:induction false} PutAllConcat(s: Store, first: seq<(string, Page)>, second: seq<(string, Page)>)
    requires WellFormed(s)
    ensures PutAll(s, first + second) == PutAll(PutAll(s, first), second)
    decreases |first|
  {
    if first != [] {
      assert (first + second)[0] == first[0];
      assert (first + second)[1..] == first[1..] + second;
      PutAllConcat(Put(s, first[0].0, first[0].1), first[1..], second);
    } else {
      assert first + second == second;
    }
  }

  /** A write that no later write of the same key follows decides that
      key's page, whatever came before it. */
  lemma LaterBatchWins(s: Store, first: seq<(string, Page)>, second: seq<(string, Page)>, i: nat)
    requires WellFormed(s)
    requires i < |second| && forall j :: i < j < |second| ==> second[j].0 != second[i].0
    ensures var stored := PutAll(s, first + second).pages;
      second[i].0 in stored && stored[second[i].0] == second[i].1
  {
    PutAllConcat(s, first, second);
    PutAllLookup(PutAll(s, first), second, second[i].0);
  }

  /** Writes that each put a page under its own path keep every page of
      the store under its own path. */
  lemma {:induction false} PutAllSelfKeyed(s: Store, writes: seq<(string, Page)>)
    requires WellFormed(s)
    requires forall key :: key in s.pages ==> s.pages[key].path == key
    requires forall k :: 0 <= k < |writes| ==> writes[k].1.path == writes[k].0
    ensures forall key :: key in PutAll(s, writes).pages ==> PutAll(s, writes).pages[key].path == key
    decreases |writes|
  {
    if writes != [] {
      PutAllSelfKeyed(Put(s, writes[0].0, writes[0].1), writes[1..]);
    }
  }

  /** The store as the build holds it: a `Map` updated in place. */
  class PageMap {
    var keys: seq<string>
    var pages: map<string, Page>

    ghost predicate Valid()
      reads this
    {
      WellFormed(State())
    }

    function State(): Store
      reads this
    {
      Store(keys, pages)
    }

    /** `new Map()`. */
    constructor ()
      ensures Valid() && State() == Empty
    {
      keys := [];
      pages := map[];
    }

    /** `map.set(key, page)`. */
    method Set(key: string, page: Page)
      requires Valid()
      modifies this
      ensures Valid() && State() == Put(old(State()), key, page)
    {
      if key !in pages {
        keys := keys + [key];
      }
      pages := pages[key := page];
    }

    /** `map.size`. */
    method Size() returns (n: nat)
      requires Valid()
      ensures n == |State().keys|
    {
      n := |keys|;
    }
  }
}
