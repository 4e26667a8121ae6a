/** Parsed JSON values as `JSON.parse` yields them, with JavaScript's truthiness,
    property lookup and `Object.keys`. */
module JsonModel {
  import opened Results

  /** An object keeps its members in source order. A key may occur more than once:
      as with `JSON.parse`, the last value wins and the key keeps its first position. */
  datatype Json =
    | Null
    | Bool(b: bool)
    | Num(n: real)
    | Str(s: string)
    | Arr(items: seq<Json>)
    | Obj(members: seq<Member>)

  datatype Member = Member(key: string, value: Json)

  /** JavaScript truthiness of a JSON value (a parsed number is never NaN). */
  predicate Truthy(j: Json) {
    match j
    case Null => false
    case Bool(b) => b
    case Num(n) => n != 0.0
    case Str(s) => s != ""
    case Arr(_) => true
    case Obj(_) => true
  }

  /** `obj[key] ?? null` on an object's own members: the value of the last member named
      `key`, or Null when there is none (FieldAbsent, FieldLast). */
  function Field(members: seq<Member>, key: string): Json
    decreases |members|
  {
    if members == [] then Null
    else if members[|members| - 1].key == key then members[|members| - 1].value
    else Field(members[..|members| - 1], key)
  }

  lemma {:induction false} FieldAbsent(members: seq<Member>, key: string)
    requires forall i :: 0 <= i < |members| ==> members[i].key != key
    ensures Field(members, key) == Null
    decreases |members|
  {
    if members != [] {
      FieldAbsent(members[..|members| - 1], key);
    }
  }

  lemma {:induction false} FieldLast(members: seq<Member>, key: string, i: nat)
    requires i < |members| && members[i].key == key
    requires forall k :: i < k < |members| ==> members[k].key != key
    ensures Field(members, key) == members[i].value
    decreases |members|
  {
    if i < |members| - 1 {
      FieldLast(members[..|members| - 1], key, i);
    }
  }

  /** The property name a JSON value stands for when it is used as a key. Numbers,
      arrays and objects are not converted (see README). */
  function KeyName(key: Json): Option<string> {
    match key
    case Str(s) => Some(s)
    case Null => Some("null")
    case Bool(b) => Some(if b then "true" else "false")
    case _ => None
  }

  /** `row[key] ?? null` for a row that is not null. */
  function Lookup(row: Json, key: Json): Json {
    if row.Obj? && KeyName(key).Some? then Field(row.members, KeyName(key).value) else Null
  }

  function MemberKeys(members: seq<Member>): (ks: seq<string>)
    ensures |ks| == |members| && forall i :: 0 <= i < |members| ==> ks[i] == members[i].key
  {
    seq(|members|, i requires 0 <= i < |members| => members[i].key)
  }

  /** `Object.keys(obj)` of a parsed object: each member name once, in first-seen order. */
  function ObjectKeys(members: seq<Member>): seq<string> {
    Dedup(MemberKeys(members))
  }

  predicate Distinct(s: seq<string>) {
    forall i, j :: 0 <= i < j < |s| ==> s[i] != s[j]
  }

  /** Inserting into an insertion-ordered set (JavaScript's `Set.prototype.add`). */
  function AddNew(acc: seq<string>, x: string): (r: seq<string>)
    ensures forall y :: y in r <==> y in acc || y == x
    ensures Distinct(acc) ==> Distinct(r)
    ensures acc <= r && |r| <= |acc| + 1
    ensures |r| == |acc| <==> x in acc
  {
    if x in acc then acc else acc + [x]
  }

  /** The insertion-ordered set obtained by adding the elements of `s` in order. */
  function Dedup(s: seq<string>): (r: seq<string>)
    ensures Distinct(r)
    ensures forall x :: x in r <==> x in s
    decreases |s|
  {
    if s == [] then [] else AddNew(Dedup(s[..|s| - 1]), s[|s| - 1])
  }

  /** Adding one more element to the set. */
  lemma DedupSnoc(s: seq<string>, x: string)
    ensures Dedup(s + [x]) == AddNew(Dedup(s), x)
  {
    assert (s + [x])[..|s|] == s;
  }

  /** The position of the first occurrence of `x` in `s`. */
  function FirstIndex(s: seq<string>, x: string): (i: nat)
    requires x in s
    ensures i < |s| && s[i] == x
    ensures forall k :: 0 <= k < i ==> s[k] != x
  {
    if s[0] == x then 0 else 1 + FirstIndex(s[1..], x)
  }

  lemma FirstIndexExtend(s: seq<string>, x: string, y: string)
    requires y in s
    ensures FirstIndex(s + [x], y) == FirstIndex(s, y)
  {
    var b := FirstIndex(s, y);
    assert (s + [x])[b] == y;
  }

  /** A new last element joins the set at its end, after every element seen before it. */
  lemma DedupAppendOrder(init: seq<string>, x: string)
    requires x !in init
    requires forall i, j :: 0 <= i < j < |Dedup(init)| ==>
               FirstIndex(init, Dedup(init)[i]) < FirstIndex(init, Dedup(init)[j])
    ensures forall i, j :: 0 <= i < j < |Dedup(init + [x])| ==>
              FirstIndex(init + [x], Dedup(init + [x])[i]) < FirstIndex(init + [x], Dedup(init + [x])[j])
  {
    var s, d := init + [x], Dedup(init);
    assert s[..|s| - 1] == init;
    assert Dedup(s) == d + [x];
    assert FirstIndex(s, x) == |init|;
    forall i | 0 <= i < |d| ensures FirstIndex(s, d[i]) == FirstIndex(init, d[i]) {
      FirstIndexExtend(init, x, d[i]);
    }
  }

  /** Dedup lists the distinct elements of `s` ordered by where each first occurs in `s`. */
  lemma {:induction false} DedupFirstSeenOrder(s: seq<string>)
    ensures forall i, j :: 0 <= i < j < |Dedup(s)| ==>
              FirstIndex(s, Dedup(s)[i]) < FirstIndex(s, Dedup(s)[j])
  {
    if s != [] {
      var init, x := s[..|s| - 1], s[|s| - 1];
      assert s == init + [x];
      DedupFirstSeenOrder(init);
      var d := Dedup(init);
      if x in init {
        assert Dedup(s) == d;
        forall y | y in init ensures FirstIndex(s, y) == FirstIndex(init, y) {
          FirstIndexExtend(init, x, y);
        }
      } else {
        DedupAppendOrder(init, x);
      }
    }
  }
}
