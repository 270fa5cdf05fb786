/**
 * `URLSearchParams` as section 6.2 of the WHATWG URL Standard describes it:
 * an ordered list of name-value pairs with `append`, `delete`, `set`,
 * `getAll` and `get`. The list is a `seq` so that order and repeated names
 * are kept. Percent-encoding by `toString` is not modelled; `Serialize` is a
 * plain `name=value&...` join.
 */
module UrlParams {
  import opened Wrappers
  import Text

  type Pair = (string, string)

  /** `getAll(name)`: the values of all pairs named `name`, in list order. */
  function ValuesOf(list: seq<Pair>, name: string): (r: seq<string>)
    ensures |r| <= |list|
    ensures forall v :: v in r <==> (name, v) in list
  {
    if list == [] then []
    else (if list[0].0 == name then [list[0].1] else []) + ValuesOf(list[1..], name)
  }

  /** `get(name)`: the value of the first pair named `name`, or `null`. */
  function FirstValue(list: seq<Pair>, name: string): (r: Option<string>)
    ensures r.None? <==> ValuesOf(list, name) == []
    ensures r.Some? ==> r.value == ValuesOf(list, name)[0]
  {
    if list == [] then None
    else if list[0].0 == name then Some(list[0].1)
    else FirstValue(list[1..], name)
  }

  predicate HasName(list: seq<Pair>, name: string) {
    exists i :: 0 <= i < |list| && list[i].0 == name
  }

  /** `delete(name)`: every pair named `name` removed, the others kept in order. */
  function Without(list: seq<Pair>, name: string): (r: seq<Pair>)
    ensures forall p :: p in r <==> p in list && p.0 != name
    ensures !HasName(r, name)
  {
    if list == [] then []
    else (if list[0].0 == name then [] else [list[0]]) + Without(list[1..], name)
  }

  /** `list` with its first pair named `name` given `value`, later pairs named `name` removed. */
  function ReplaceFirst(list: seq<Pair>, name: string, value: string): seq<Pair> {
    if list == [] then []
    else if list[0].0 == name then [(name, value)] + Without(list[1..], name)
    else [list[0]] + ReplaceFirst(list[1..], name, value)
  }

  /**
   * `set(name, value)`: replace the first pair named `name` and drop the rest, or append.
   * Afterwards exactly one pair is named `name` and it holds `value`; the pairs
   * with other names are the same, in the same order.
   */
  function SetValue(list: seq<Pair>, name: string, value: string): (r: seq<Pair>)
    ensures ValuesOf(r, name) == [value]
    ensures Without(r, name) == Without(list, name)
    ensures !HasName(list, name) ==> r == list + [(name, value)]
    ensures forall k :: 0 <= k < |list| && list[k].0 == name && IsFirstNamed(list, name, k) ==>
      k < |r| && r[..k] == list[..k] && r[k] == (name, value)
  {
    if HasName(list, name) then
      ReplaceFirstFacts(list, name, value);
      assert forall k :: 0 <= k < |list| && list[k].0 == name && IsFirstNamed(list, name, k) ==>
        var t := ReplaceFirst(list, name, value); k < |t| && t[..k] == list[..k] && t[k] == (name, value) by {
        forall k | 0 <= k < |list| && list[k].0 == name && IsFirstNamed(list, name, k) {
          ReplaceFirstSlot(list, name, value, k);
        }
      }
      ReplaceFirst(list, name, value)
    else
      ValuesOfAppend(list, [(name, value)], name);
      WithoutAppend(list, [(name, value)], name);
      WithoutAbsent(list, name);
      WithoutAbsentValues(list, name);
      list + [(name, value)]
  }

  /** Plain `name=value` pairs joined with `&`; the text is empty exactly when there are no pairs. */
  function Serialize(list: seq<Pair>): (r: string)
    ensures r == "" <==> list == []
  {
    var parts := seq(|list|, i requires 0 <= i < |list| => list[i].0 + "=" + list[i].1);
    assert list != [] ==> '=' in parts[0] && Text.TotalLength(parts) >= |parts[0]|;
    Text.Join(parts, "&")
  }

  lemma {:induction false} ValuesOfAppend(a: seq<Pair>, b: seq<Pair>, name: string)
    ensures ValuesOf(a + b, name) == ValuesOf(a, name) + ValuesOf(b, name)
  {
    if a != [] {
      ValuesOfAppend(a[1..], b, name);
      assert (a + b)[1..] == a[1..] + b;
    } else {
      assert a + b == b;
    }
  }

  /** After `delete(name)`, `getAll` of `name` is empty and of every other name unchanged. */
  lemma {:induction false} ValuesOfWithout(list: seq<Pair>, name: string, other: string)
    ensures ValuesOf(Without(list, name), other) == if other == name then [] else ValuesOf(list, other)
  {
    if list != [] {
      ValuesOfWithout(list[1..], name, other);
      var head: seq<Pair> := if list[0].0 == name then [] else [list[0]];
      ValuesOfAppend(head, Without(list[1..], name), other);
    }
  }

  /** After `delete(name)`, `get` of every other name is unchanged. */
  lemma FirstValueWithout(list: seq<Pair>, name: string, other: string)
    requires other != name
    ensures FirstValue(Without(list, name), other) == FirstValue(list, other)
  {
    ValuesOfWithout(list, name, other);
  }

  /** Deleting a name twice is deleting it once; deleting two names commutes. */
  lemma {:induction false} WithoutWithout(list: seq<Pair>, a: string, b: string)
    ensures Without(Without(list, a), b) == Without(Without(list, b), a)
  {
    if list != [] {
      WithoutWithout(list[1..], a, b);
      var ha: seq<Pair> := if list[0].0 == a then [] else [list[0]];
      var hb: seq<Pair> := if list[0].0 == b then [] else [list[0]];
      WithoutAppend(ha, Without(list[1..], a), b);
      WithoutAppend(hb, Without(list[1..], b), a);
    }
  }

  lemma {:induction false} WithoutAppend(x: seq<Pair>, y: seq<Pair>, name: string)
    ensures Without(x + y, name) == Without(x, name) + Without(y, name)
  {
    if x != [] {
      var head: seq<Pair> := if x[0].0 == name then [] else [x[0]];
      assert (x + y)[0] == x[0] && (x + y)[1..] == x[1..] + y;
      assert Without(x + y, name) == head + Without(x[1..] + y, name);
      WithoutAppend(x[1..], y, name);
    } else {
      assert x + y == y;
    }
  }

  lemma {:induction false} WithoutAbsent(list: seq<Pair>, name: string)
    requires !HasName(list, name)
    ensures Without(list, name) == list
  {
    if list != [] {
      assert list[0].0 != name;
      assert !HasName(list[1..], name) by {
        forall i | 0 <= i < |list[1..]| ensures list[1..][i].0 != name {
          assert list[1..][i] == list[i + 1];
        }
      }
      WithoutAbsent(list[1..], name);
      assert list == [list[0]] + list[1..];
    }
  }

  lemma {:induction false} ReplaceFirstFacts(list: seq<Pair>, name: string, value: string)
    requires HasName(list, name)
    ensures ValuesOf(ReplaceFirst(list, name, value), name) == [value]
    ensures Without(ReplaceFirst(list, name, value), name) == Without(list, name)
  {
    if list[0].0 == name {
      var rest := Without(list[1..], name);
      ValuesOfWithout(list[1..], name, name);
      ValuesOfAppend([(name, value)], rest, name);
      WithoutAppend([(name, value)], rest, name);
      WithoutWithout(list[1..], name, name);
      WithoutAbsent(rest, name);
    } else {
      assert HasName(list[1..], name) by {
        var i :| 0 <= i < |list| && list[i].0 == name;
        assert list[1..][i - 1] == list[i];
      }
      ReplaceFirstFacts(list[1..], name, value);
      ValuesOfAppend([list[0]], ReplaceFirst(list[1..], name, value), name);
      WithoutAppend([list[0]], ReplaceFirst(list[1..], name, value), name);
    }
  }

  /** No pair before index `k` is named `name`. */
  predicate IsFirstNamed(list: seq<Pair>, name: string, k: nat)
    requires k <= |list|
  {
    forall i :: 0 <= i < k ==> list[i].0 != name
  }

  /** The pairs before the first one named `name` are kept, and that slot takes the new value. */
  lemma {:induction false} ReplaceFirstSlot(list: seq<Pair>, name: string, value: string, k: nat)
    requires k < |list| && list[k].0 == name && IsFirstNamed(list, name, k)
    ensures var r := ReplaceFirst(list, name, value); k < |r| && r[..k] == list[..k] && r[k] == (name, value)
  {
    if k > 0 {
      assert list[0].0 != name;
      assert IsFirstNamed(list[1..], name, k - 1) by {
        forall i | 0 <= i < k - 1 ensures list[1..][i].0 != name {
          assert list[1..][i] == list[i + 1];
        }
      }
      ReplaceFirstSlot(list[1..], name, value, k - 1);
      var t := ReplaceFirst(list[1..], name, value);
      assert ReplaceFirst(list, name, value) == [list[0]] + t;
      assert list[..k] == [list[0]] + list[1..][..k - 1];
    }
  }

  lemma WithoutAbsentValues(list: seq<Pair>, name: string)
    requires !HasName(list, name)
    ensures ValuesOf(list, name) == []
  {
    WithoutAbsent(list, name);
    ValuesOfWithout(list, name, name);
  }

  /** A `URLSearchParams` object, updated in place by its methods. */
  class SearchParams {
    var entries: seq<Pair>

    /** `new URLSearchParams(init)`: a copy of `init`'s list. */
    constructor (init: seq<Pair>)
      ensures entries == init
    {
      entries := init;
    }

    method Append(name: string, value: string)
      modifies this
      ensures entries == old(entries) + [(name, value)]
    {
      entries := entries + [(name, value)];
    }

    method Delete(name: string)
      modifies this
      ensures entries == Without(old(entries), name)
    {
      entries := Without(entries, name);
    }

    method Set(name: string, value: string)
      modifies this
      ensures entries == SetValue(old(entries), name, value)
    {
      entries := SetValue(entries, name, value);
    }
  }
}
