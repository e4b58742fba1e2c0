/** The values json.loads produces, and dict.pop on the objects among them. */
module JsonValue {
  import opened Wrappers

  /**
   * A decoded JSON value. An object keeps its members in insertion order, as a Python dict
   * does; numbers keep their literal text, since nothing here does arithmetic on them.
   */
  datatype Json =
    | Null
    | Bool(b: bool)
    | Number(literal: string)
    | Str(s: string)
    | Arr(items: seq<Json>)
    | Obj(fields: seq<(string, Json)>)

  /** The list json.loads gives for `[]`, which the extractor returns on any failure. */
  const EmptyList: Json := Arr([])

  predicate HasKey(fields: seq<(string, Json)>, k: string) {
    exists i :: 0 <= i < |fields| && fields[i].0 == k
  }

  /** A Python dict never holds a key twice. */
  predicate UniqueKeys(fields: seq<(string, Json)>) {
    forall i, j :: 0 <= i < j < |fields| ==> fields[i].0 != fields[j].0
  }

  /** `d[k]` as an Option: the value of the first member named k. */
  function Lookup(fields: seq<(string, Json)>, k: string): (r: Option<Json>)
    ensures r.Some? <==> HasKey(fields, k)
    decreases |fields|
  {
    if fields == [] then None
    else if fields[0].0 == k then Some(fields[0].1)
    else Lookup(fields[1..], k)
  }

  /**
   * `d.pop(k, None)`, keeping what is left of the dict: the members named k are gone and
   * every other key still has its value; a dict without k comes back unchanged.
   */
  function Pop(fields: seq<(string, Json)>, k: string): (r: seq<(string, Json)>)
    ensures !HasKey(r, k)
    ensures !HasKey(fields, k) ==> r == fields
    ensures forall k' :: k' != k ==> Lookup(r, k') == Lookup(fields, k')
    ensures forall i :: 0 <= i < |r| ==> r[i] in fields
    ensures UniqueKeys(fields) ==> UniqueKeys(r)
    decreases |fields|
  {
    if fields == [] then []
    else if fields[0].0 == k then Pop(fields[1..], k)
    else
      var rest := Pop(fields[1..], k);
      assert UniqueKeys(fields) ==> forall i :: 0 <= i < |rest| ==> rest[i].0 != fields[0].0 by {
        if UniqueKeys(fields) {
          forall i | 0 <= i < |rest| ensures rest[i].0 != fields[0].0 {
            var j :| 0 <= j < |fields[1..]| && fields[1..][j] == rest[i];
            assert fields[j + 1] == rest[i];
          }
        }
      }
      [fields[0]] + rest
  }

  /** Popping a key that the dict holds at position i removes exactly that member, keeping the order of the rest. */
  lemma {:induction false} PopRemovesOneEntry(fields: seq<(string, Json)>, k: string, i: nat)
    requires UniqueKeys(fields)
    requires i < |fields| && fields[i].0 == k
    ensures Pop(fields, k) == fields[..i] + fields[i + 1..]
    decreases |fields|
  {
    if i == 0 {
      assert !HasKey(fields[1..], k) by {
        forall j | 0 <= j < |fields[1..]| ensures fields[1..][j].0 != k {
          assert fields[1..][j] == fields[j + 1];
        }
      }
    } else {
      assert UniqueKeys(fields[1..]) by {
        forall a, b | 0 <= a < b < |fields[1..]| ensures fields[1..][a].0 != fields[1..][b].0 {
          assert fields[1..][a] == fields[a + 1] && fields[1..][b] == fields[b + 1];
        }
      }
      assert fields[0].0 != k;
      PopRemovesOneEntry(fields[1..], k, i - 1);
      assert fields[1..][..i - 1] == fields[1..i];
      assert fields[1..][i..] == fields[i + 1..];
      assert [fields[0]] + fields[1..i] == fields[..i];
    }
  }

  /** Popping the same key twice leaves what popping it once left. */
  lemma {:induction false} PopIdempotent(fields: seq<(string, Json)>, k: string)
    ensures Pop(Pop(fields, k), k) == Pop(fields, k)
  {
  }
}
