/** The keycode catalogue's lookups (src/data/keycodes.ts). The catalogue
    itself, a list of categories of QMK keycodes, is an input here. */
module Keycodes {
  import opened Wrappers
  import Text

  datatype Keycode = Keycode(code: string, caption: string, description: Option<string>)

  datatype Category = Category(name: string, caption: string, keycodes: seq<Keycode>)

  /** Every keycode of every category, category by category (`flatMap`). */
  function AllKeycodes(categories: seq<Category>): (r: seq<Keycode>)
    ensures forall k :: k in r <==> exists c :: c in categories && k in c.keycodes
  {
    if categories == [] then []
    else
      var rest := AllKeycodes(categories[1..]);
      assert forall c :: c in categories <==> c == categories[0] || c in categories[1..];
      categories[0].keycodes + rest
  }

  /** The normalised query contains in the lower-cased code, caption or
      description. */
  predicate Hit(k: Keycode, q: string) {
    || Text.Contains(Text.Lower(k.code), q)
    || Text.Contains(Text.Lower(k.caption), q)
    || (k.description.Some? && Text.Contains(Text.Lower(k.description.value), q))
  }

  /** The matching entries of a list, in order. */
  function Hits(ks: seq<Keycode>, q: string): (r: seq<Keycode>)
    ensures |r| <= |ks|
    ensures forall k :: k in r <==> k in ks && Hit(k, q)
  {
    if ks == [] then []
    else
      var rest := Hits(ks[1..], q);
      assert forall k :: k in ks <==> k == ks[0] || k in ks[1..];
      if Hit(ks[0], q) then [ks[0]] + rest else rest
  }

  /** Filtering keeps the table's order: the hits of two runs are the hits of
      the first followed by the hits of the second. */
  lemma {:induction false} HitsAppend(a: seq<Keycode>, b: seq<Keycode>, q: string)
    ensures Hits(a + b, q) == Hits(a, q) + Hits(b, q)
  {
    if a == [] {
      assert a + b == b;
    } else {
      assert (a + b)[0] == a[0] && (a + b)[1..] == a[1..] + b;
      HitsAppend(a[1..], b, q);
    }
  }

  /** The query as searched for: lower-cased, then trimmed. */
  function Normalise(query: string): string {
    Text.Trim(Text.Lower(query))
  }

  /** searchKeycodes: nothing for a blank query; otherwise every entry, in
      catalogue order, whose code, caption or description contains the query,
      ignoring case. */
  function SearchKeycodes(categories: seq<Category>, query: string): (r: seq<Keycode>)
    ensures Normalise(query) == "" ==> r == []
    ensures Normalise(query) != "" ==> r == Hits(AllKeycodes(categories), Normalise(query))
    ensures forall k :: k in r <==>
      (Normalise(query) != "" && Hit(k, Normalise(query)) && exists c :: c in categories && k in c.keycodes)
  {
    var q := Normalise(query);
    if q == "" then [] else Hits(AllKeycodes(categories), q)
  }

  /** Searching one category after another gives the results of each in turn. */
  lemma SearchByCategory(c: Category, rest: seq<Category>, query: string)
    requires Normalise(query) != ""
    ensures SearchKeycodes([c] + rest, query) == Hits(c.keycodes, Normalise(query)) + SearchKeycodes(rest, query)
  {
    assert ([c] + rest)[1..] == rest;
    HitsAppend(c.keycodes, AllKeycodes(rest), Normalise(query));
  }

  /** Every entry with this code is not before position `i`. */
  predicate FirstWithCode(ks: seq<Keycode>, code: string, i: int)
    requires 0 <= i < |ks|
  {
    ks[i].code == code && forall j :: 0 <= j < i ==> ks[j].code != code
  }

  /** `find` over a list: the first entry with this code. */
  function FindIn(ks: seq<Keycode>, code: string): (r: Option<nat>)
    ensures r.None? <==> forall k :: k in ks ==> k.code != code
    ensures r.Some? ==> r.value < |ks| && FirstWithCode(ks, code, r.value)
  {
    if ks == [] then None
    else if ks[0].code == code then Some(0)
    else
      match FindIn(ks[1..], code)
      case None =>
        assert forall k :: k in ks ==> k == ks[0] || k in ks[1..];
        None
      case Some(j) =>
        assert ks[j + 1] == ks[1..][j];
        assert forall i :: 0 < i < j + 1 ==> ks[i] == ks[1..][i - 1];
        Some(j + 1)
  }

  /** findKeycode: category by category, the first entry with this code. */
  function FindKeycode(categories: seq<Category>, code: string): (r: Option<Keycode>)
    ensures r.None? <==> forall k :: k in AllKeycodes(categories) ==> k.code != code
    ensures r.Some? ==> exists i ::
      (0 <= i < |AllKeycodes(categories)| && FirstWithCode(AllKeycodes(categories), code, i) && AllKeycodes(categories)[i] == r.value)
  {
    if categories == [] then None
    else
      var all := AllKeycodes(categories);
      assert all == categories[0].keycodes + AllKeycodes(categories[1..]);
      match FindIn(categories[0].keycodes, code)
      case Some(i) =>
        assert all[i] == categories[0].keycodes[i];
        Some(categories[0].keycodes[i])
      case None =>
        FindSkipsCategory(categories, code);
        FindKeycode(categories[1..], code)
  }

  /** A category without the code shifts the first occurrence by its size. */
  lemma FindSkipsCategory(categories: seq<Category>, code: string)
    requires categories != [] && forall k :: k in categories[0].keycodes ==> k.code != code
    ensures var all, tail := AllKeycodes(categories), AllKeycodes(categories[1..]);
      && ((forall k :: k in all ==> k.code != code) <==> (forall k :: k in tail ==> k.code != code))
      && forall i :: 0 <= i < |tail| && FirstWithCode(tail, code, i) ==>
           0 <= |categories[0].keycodes| + i < |all| && FirstWithCode(all, code, |categories[0].keycodes| + i)
           && all[|categories[0].keycodes| + i] == tail[i]
  {
    var all, tail := AllKeycodes(categories), AllKeycodes(categories[1..]);
    var first := categories[0].keycodes;
    assert all == first + tail;
    forall i | 0 <= i < |tail| && FirstWithCode(tail, code, i)
      ensures FirstWithCode(all, code, |first| + i) && all[|first| + i] == tail[i]
    {
      assert all[|first| + i] == tail[i];
      forall j | 0 <= j < |first| + i ensures all[j].code != code {
        if j < |first| {
          assert all[j] == first[j];
        } else {
          assert all[j] == tail[j - |first|];
        }
      }
    }
  }

  /** getKeycodeLabel: the catalogue's caption for the code, or the code itself
      when the code is unknown or its caption is empty. */
  function KeycodeLabel(categories: seq<Category>, code: string): (r: string)
    ensures FindKeycode(categories, code).None? ==> r == code
    ensures FindKeycode(categories, code).Some? && FindKeycode(categories, code).value.caption != "" ==>
      r == FindKeycode(categories, code).value.caption
    ensures r == code || exists k :: k in AllKeycodes(categories) && k.code == code && k.caption == r
  {
    match FindKeycode(categories, code)
    case None => code
    case Some(k) =>
      if k.caption != "" then
        assert k in AllKeycodes(categories);
        k.caption
      else code
  }

  /** A code whose only entry in the catalogue has caption `l` is shown as `l`. */
  lemma KnownCodeShowsLabel(categories: seq<Category>, k: Keycode)
    requires k in AllKeycodes(categories) && k.caption != ""
    requires forall k2 :: k2 in AllKeycodes(categories) && k2.code == k.code ==> k2 == k
    ensures KeycodeLabel(categories, k.code) == k.caption
  {
    var r := FindKeycode(categories, k.code);
    var all := AllKeycodes(categories);
    var i :| 0 <= i < |all| && FirstWithCode(all, k.code, i) && all[i] == r.value;
  }
}
