/**
 * Loosely typed records: the Python dicts the service stores and returns.
 *
 * A record is an ordered list of fields, because a Python dict remembers
 * insertion order and the CSV header is read off the first row's keys in that
 * order. Assigning to an existing key keeps its position; assigning to a new
 * key appends it.
 */
module Values {
  import opened Text

  /** The values a field can hold: the JSON-like Python values the service uses. */
  datatype Value =
    | VNone
    | VBool(b: bool)
    | VInt(i: int)
    | VStr(s: string)
    | VList(items: seq<Value>)
    | VDict(fields: seq<Field>)

  datatype Field = Field(key: string, val: Value)

  type Record = seq<Field>

  function Keys(r: Record): (ks: seq<string>)
    ensures |ks| == |r|
    ensures forall i :: 0 <= i < |r| ==> ks[i] == r[i].key
  {
    if r == [] then [] else [r[0].key] + Keys(r[1..])
  }

  predicate Has(r: Record, k: string)
  {
    k in Keys(r)
  }

  /** A dict never holds the same key twice. */
  ghost predicate WellFormed(r: Record)
  {
    forall i, j :: 0 <= i < j < |r| ==> r[i].key != r[j].key
  }

  /** `r.get(k, d)`. */
  function GetOr(r: Record, k: string, d: Value): (v: Value)
    ensures !Has(r, k) ==> v == d
  {
    if r == [] then d
    else if r[0].key == k then r[0].val
    else GetOr(r[1..], k, d)
  }

  /** A present key reads as the value of its field. */
  lemma {:induction false} GetOrFound(r: Record, k: string, d: Value)
    requires Has(r, k)
    ensures exists i :: 0 <= i < |r| && r[i] == Field(k, GetOr(r, k, d))
  {
    if r[0].key == k {
      assert r[0] == Field(k, GetOr(r, k, d));
    } else {
      GetOrFound(r[1..], k, d);
      var i :| 0 <= i < |r[1..]| && r[1..][i] == Field(k, GetOr(r[1..], k, d));
      assert r[i + 1] == r[1..][i];
    }
  }

  /** The default matters only for a missing key. */
  lemma {:induction false} GetOrPresent(r: Record, k: string, d1: Value, d2: Value)
    requires Has(r, k)
    ensures GetOr(r, k, d1) == GetOr(r, k, d2)
  {
    if r[0].key != k {
      GetOrPresent(r[1..], k, d1, d2);
    }
  }

  /** `r.get(k)`: a missing key reads as `None`. */
  function Get(r: Record, k: string): Value
  {
    GetOr(r, k, VNone)
  }

  /** `r[k] = v`. */
  function Set(r: Record, k: string, v: Value): Record
  {
    if r == [] then [Field(k, v)]
    else if r[0].key == k then [Field(k, v)] + r[1..]
    else [r[0]] + Set(r[1..], k, v)
  }

  /**
   * Assignment as a Python dict does it: an existing key keeps its position,
   * a new key goes last, the key then reads as `v`, and every other key reads
   * as before.
   */
  lemma {:induction false} SetFacts(r: Record, k: string, v: Value)
    ensures Keys(Set(r, k, v)) == if Has(r, k) then Keys(r) else Keys(r) + [k]
    ensures GetOr(Set(r, k, v), k, VNone) == v
    ensures forall k', d :: k' != k ==> GetOr(Set(r, k, v), k', d) == GetOr(r, k', d)
  {
    if r != [] && r[0].key != k {
      SetFacts(r[1..], k, v);
      assert Keys(r) == [r[0].key] + Keys(r[1..]);
    }
  }

  /** Assignment keeps every key distinct. */
  lemma SetWellFormed(r: Record, k: string, v: Value)
    requires WellFormed(r)
    ensures WellFormed(Set(r, k, v))
  {
    SetFacts(r, k, v);
    var r' := Set(r, k, v);
    var ks := Keys(r');
    forall i, j | 0 <= i < j < |r'|
      ensures r'[i].key != r'[j].key
    {
      assert ks[i] == r'[i].key && ks[j] == r'[j].key;
      if !Has(r, k) {
        assert Keys(r)[i] == r[i].key;
        if j < |r| {
          assert Keys(r)[j] == r[j].key;
        } else {
          assert ks[j] == k;
          assert Keys(r)[i] in Keys(r);
        }
      } else {
        assert Keys(r)[i] == r[i].key && Keys(r)[j] == r[j].key;
      }
    }
  }

  /** Python truthiness: `None`, `False`, `0`, `""`, `[]` and `{}` are false. */
  predicate Truthy(v: Value)
  {
    match v
    case VNone => false
    case VBool(b) => b
    case VInt(i) => i != 0
    case VStr(s) => s != []
    case VList(items) => items != []
    case VDict(fields) => fields != []
  }

  /** `str(v)`: strings as they are, everything else as Python writes it. */
  function Str(v: Value): string
  {
    match v
    case VStr(s) => s
    case _ => Repr(v)
  }

  /** `repr(v)`, with strings in single quotes (escaping is not modelled). */
  function Repr(v: Value): string
  {
    match v
    case VNone => "None"
    case VBool(b) => if b then "True" else "False"
    case VInt(i) => IntToString(i)
    case VStr(s) => "'" + s + "'"
    case VList(items) => "[" + ReprItems(items) + "]"
    case VDict(fields) => "{" + ReprFields(fields) + "}"
  }

  function ReprItems(items: seq<Value>): string
  {
    if items == [] then ""
    else if |items| == 1 then Repr(items[0])
    else Repr(items[0]) + ", " + ReprItems(items[1..])
  }

  function ReprFields(fields: seq<Field>): string
  {
    if fields == [] then ""
    else
      var first := "'" + fields[0].key + "': " + Repr(fields[0].val);
      if |fields| == 1 then first else first + ", " + ReprFields(fields[1..])
  }

  /** A value Python can put in a set or use as a dict key. */
  predicate Hashable(v: Value)
  {
    !v.VList? && !v.VDict?
  }
}
