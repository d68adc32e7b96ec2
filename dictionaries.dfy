/**
 * A C# `Dictionary<string, string>` as the core uses it: keys are non-null and unique, values
 * may be null, and enumeration follows insertion order (entries are never removed here). It is
 * an association list whose order is the enumeration order; `Put` is the indexer's setter.
 */
module Dictionaries {

  import opened Wrappers

  datatype Entry = Entry(key: string, value: Option<string>)

  type Dictionary = seq<Entry>

  /** The keys in enumeration order. */
  function Keys(d: Dictionary): (r: seq<string>)
  {
    seq(|d|, i requires 0 <= i < |d| => d[i].key)
  }

  predicate Distinct(s: seq<string>)
  {
    forall i, j :: 0 <= i < j < |s| ==> s[i] != s[j]
  }

  /** The invariant of every dictionary: no key twice. */
  predicate Valid(d: Dictionary)
  {
    Distinct(Keys(d))
  }

  /** `TryGetValue`: `None` when the key is absent, otherwise its (possibly null) value. */
  function Get(d: Dictionary, k: string): (r: Option<Option<string>>)
    ensures r.Some? <==> k in Keys(d)
  {
    if d == [] then None
    else
      assert Keys(d) == [d[0].key] + Keys(d[1..]);
      if d[0].key == k then Some(d[0].value) else Get(d[1..], k)
  }

  /** The keys of a dictionary with `e` in front. */
  lemma KeysCons(e: Entry, rest: Dictionary)
    ensures Keys([e] + rest) == [e.key] + Keys(rest)
  {
  }

  /**
   * `d[k] = v`: an existing key keeps its place and takes the new value; a new key is appended.
   * The recursive call's contract is what proves the result's.
   */
  function Put(d: Dictionary, k: string, v: Option<string>): (r: Dictionary)
    ensures Get(r, k) == Some(v)
    ensures Keys(r) == if k in Keys(d) then Keys(d) else Keys(d) + [k]
  {
    if d == [] then [Entry(k, v)]
    else
      KeysCons(d[0], d[1..]);
      assert d == [d[0]] + d[1..];
      if d[0].key == k then
        KeysCons(Entry(k, v), d[1..]);
        [Entry(k, v)] + d[1..]
      else
        var rest := Put(d[1..], k, v);
        KeysCons(d[0], rest);
        assert k in Keys(d) <==> k in Keys(d[1..]);
        assert [d[0].key] + (Keys(d[1..]) + [k]) == Keys(d) + [k];
        [d[0]] + rest
  }

  /** Setting one key leaves every other key's lookup as it was. */
  lemma {:induction false} PutOtherKey(d: Dictionary, k: string, v: Option<string>, k': string)
    requires k' != k
    ensures Get(Put(d, k, v), k') == Get(d, k')
  {
    if d != [] && d[0].key != k {
      PutOtherKey(d[1..], k, v, k');
    }
  }

  lemma PutKeepsValid(d: Dictionary, k: string, v: Option<string>)
    requires Valid(d)
    ensures Valid(Put(d, k, v))
  {
  }

  lemma ValidTail(d: Dictionary)
    requires Valid(d) && d != []
    ensures Valid(d[1..])
  {
    assert Keys(d[1..]) == Keys(d)[1..];
  }

  /** A key that is new to `d` is simply appended. */
  lemma {:induction false} PutNewKeyAppends(d: Dictionary, k: string, v: Option<string>)
    requires k !in Keys(d)
    ensures Put(d, k, v) == d + [Entry(k, v)]
  {
    if d != [] {
      assert k !in Keys(d[1..]) && d[0].key != k by {
        assert d == [d[0]] + d[1..];
        KeysCons(d[0], d[1..]);
      }
      calc {
        Put(d, k, v);
        [d[0]] + Put(d[1..], k, v);
        == { PutNewKeyAppends(d[1..], k, v); }
        [d[0]] + (d[1..] + [Entry(k, v)]);
        == { assert d == [d[0]] + d[1..]; }
        d + [Entry(k, v)];
      }
    }
  }
}
