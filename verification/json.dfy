/** Parsed JSON values as the downstream API delivers them, and the Python
    operations the flattener applies to them: `k in x`, `x[k]` and
    iteration. An object is kept as its member list in text order; reading
    it as a Python dict (what `json.loads` builds) gives every key the value
    of its LAST occurrence and orders keys by their FIRST occurrence. */
module Json {
  import opened Optional
  import opened Strings

  datatype Json =
    | JNull
    | JBool(b: bool)
    | JNum(n: int)
    | JStr(str: string)
    | JArr(elems: seq<Json>)
    | JObj(fields: seq<(string, Json)>)

  type Fields = seq<(string, Json)>

  predicate HasKey(fs: Fields, k: string) {
    exists i | 0 <= i < |fs| :: fs[i].0 == k
  }

  /** `d.get(k)` on the dict the member list denotes: the last value given to `k`. */
  function Get(fs: Fields, k: string): (r: Option<Json>)
    ensures r.Some? <==> HasKey(fs, k)
    ensures r.Some? ==> exists i | 0 <= i < |fs| :: fs[i] == (k, r.value) && !HasKey(fs[i + 1..], k)
    decreases |fs|
  {
    if |fs| == 0 then None
    else
      var n := |fs| - 1;
      assert fs[n + 1..] == [];
      if fs[n].0 == k then Some(fs[n].1)
      else
        var r := Get(fs[..n], k);
        assert HasKey(fs, k) ==> HasKey(fs[..n], k) by {
          if HasKey(fs, k) {
            var i :| 0 <= i < |fs| && fs[i].0 == k;
            assert fs[..n][i].0 == k;
          }
        }
        assert r.Some? ==> exists i | 0 <= i < |fs| :: fs[i] == (k, r.value) && !HasKey(fs[i + 1..], k) by {
          if r.Some? {
            var i :| 0 <= i < n && fs[..n][i] == (k, r.value) && !HasKey(fs[..n][i + 1..], k);
            assert fs[i + 1..] == fs[..n][i + 1..] + [fs[n]];
            assert !HasKey(fs[i + 1..], k);
          }
        }
        r
  }

  /** With a key given once, `Get` is the plain lookup of that member. */
  lemma GetUnique(fs: Fields, i: nat, k: string)
    requires i < |fs| && fs[i].0 == k
    requires forall j | 0 <= j < |fs| && j != i :: fs[j].0 != k
    ensures Get(fs, k) == Some(fs[i].1)
  {
    assert HasKey(fs, k);
  }

  /** The distinct keys of the dict, the first member's key first: that is
      the key `next(iter(...))` yields. Iteration order beyond the first key
      is built as first-occurrence order but not stated. */
  function KeyOrder(fs: Fields): (ks: seq<string>)
    ensures forall k :: k in ks <==> HasKey(fs, k)
    ensures forall i, j | 0 <= i < j < |ks| :: ks[i] != ks[j]
    ensures |fs| > 0 ==> |ks| > 0 && ks[0] == fs[0].0
    decreases |fs|
  {
    if |fs| == 0 then []
    else
      var n := |fs| - 1;
      var ks := KeyOrder(fs[..n]);
      assert forall k :: HasKey(fs, k) <==> HasKey(fs[..n], k) || fs[n].0 == k by {
        forall k ensures HasKey(fs, k) <==> HasKey(fs[..n], k) || fs[n].0 == k {
          if HasKey(fs, k) && fs[n].0 != k {
            var i :| 0 <= i < |fs| && fs[i].0 == k;
            assert fs[..n][i].0 == k;
          }
          if HasKey(fs[..n], k) {
            var i :| 0 <= i < n && fs[..n][i].0 == k;
            assert fs[i].0 == k;
          }
        }
      }
      assert n > 0 ==> fs[..n][0] == fs[0];
      if fs[n].0 in ks then ks else ks + [fs[n].0]
  }

  /** Python's `k in x` for a string `k`: key membership on a dict, substring
      on a string, element equality on a list; `None` where Python raises
      `TypeError` (numbers, booleans, null). */
  function Contains(x: Json, k: string): (r: Option<bool>)
    ensures r.None? <==> x.JNull? || x.JBool? || x.JNum?
  {
    match x
    case JObj(fs) => Some(HasKey(fs, k))
    case JStr(s) => Some(IsSubstring(k, s))
    case JArr(xs) => Some(JStr(k) in xs)
    case _ => None
  }

  /** Python's `x[k]` for a string `k`: only a dict holding `k` answers;
      `KeyError` and `TypeError` become `None`. */
  function Subscript(x: Json, k: string): (r: Option<Json>)
    ensures r.Some? <==> x.JObj? && HasKey(x.fields, k)
    ensures r.Some? ==> (k, r.value) in x.fields
    ensures r.Some? ==> exists i | 0 <= i < |x.fields| :: x.fields[i] == (k, r.value) && !HasKey(x.fields[i + 1..], k)
  {
    match x
    case JObj(fs) => Get(fs, k)
    case _ => None
  }

  /** Python's `for e in x`: list elements, dict keys, or the one-character
      strings of a string; `None` where Python raises `TypeError`. */
  function Iterate(x: Json): (r: Option<seq<Json>>)
    ensures r.None? <==> x.JNull? || x.JBool? || x.JNum?
    ensures x.JArr? ==> r == Some(x.elems)
    ensures x.JObj? ==> r.Some? && |r.value| == |KeyOrder(x.fields)|
    ensures x.JObj? ==> forall i | 0 <= i < |KeyOrder(x.fields)| :: r.value[i] == JStr(KeyOrder(x.fields)[i])
    ensures x.JStr? ==> r.Some? && |r.value| == |x.str|
    ensures x.JStr? ==> forall i | 0 <= i < |x.str| :: r.value[i] == JStr([x.str[i]])
  {
    match x
    case JArr(xs) => Some(xs)
    case JObj(fs) =>
      var ks := KeyOrder(fs);
      Some(seq(|ks|, i requires 0 <= i < |ks| => JStr(ks[i])))
    case JStr(s) => Some(seq(|s|, i requires 0 <= i < |s| => JStr([s[i]])))
    case _ => None
  }
}
