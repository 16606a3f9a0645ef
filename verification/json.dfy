/**
 * JSON values as Python's `json` module produces them, and the recursive merge
 * `deep_update` that the self-modifier applies to configuration files.
 */
module Json {

  /** A decoded JSON value. Objects are maps: key order only matters for the text `json.dumps`
      writes, which is not modelled. */
  datatype Value =
    | JNull
    | JBool(b: bool)
    | JNum(n: int)
    | JStr(s: string)
    | JArr(items: seq<Value>)
    | JObj(fields: map<string, Value>)

  /** Python truthiness of the decoded value. */
  predicate IsTruthy(v: Value) {
    match v
    case JNull => false
    case JBool(b) => b
    case JNum(n) => n != 0
    case JStr(s) => s != ""
    case JArr(items) => items != []
    case JObj(fields) => fields != map[]
  }

  /** Python `d.get(key, default)` on a dict. */
  function Get(v: Value, key: string, default: Value): (r: Value)
    requires v.JObj?
    ensures key in v.fields ==> r == v.fields[key]
    ensures key !in v.fields ==> r == default
  {
    if key in v.fields then v.fields[key] else default
  }

  /** Both sides are objects: `deep_update` merges them rather than overwriting. */
  predicate Nested(base: map<string, Value>, upd: map<string, Value>, k: string)
    requires k in upd
  {
    upd[k].JObj? && k in base && base[k].JObj?
  }

  /** `deep_update(base, upd)`: for every key of `upd`, a nested object merges recursively
      into an object already under that key; any other value overwrites. */
  function DeepUpdate(base: map<string, Value>, upd: map<string, Value>): (r: map<string, Value>)
    ensures r.Keys == base.Keys + upd.Keys
    ensures forall k :: k in base && k !in upd ==> r[k] == base[k]
    ensures forall k :: k in upd && !Nested(base, upd, k) ==> r[k] == upd[k]
    ensures forall k :: k in upd && Nested(base, upd, k) ==> r[k].JObj?
    decreases JObj(upd)
  {
    map k | k in base.Keys + upd.Keys ::
      if k in upd then
        if Nested(base, upd, k) then JObj(DeepUpdate(base[k].fields, upd[k].fields)) else upd[k]
      else base[k]
  }

  /** Every value of `upd` is already in `m`, at any depth where both hold objects. */
  ghost predicate Subsumes(m: map<string, Value>, upd: map<string, Value>)
    decreases JObj(upd)
  {
    forall k :: k in upd ==>
      && k in m
      && (if upd[k].JObj? && m[k].JObj? then Subsumes(m[k].fields, upd[k].fields) else m[k] == upd[k])
  }

  lemma {:induction false} SubsumesSelf(m: map<string, Value>)
    ensures Subsumes(m, m)
    decreases JObj(m)
  {
    forall k | k in m && m[k].JObj? ensures Subsumes(m[k].fields, m[k].fields) {
      SubsumesSelf(m[k].fields);
    }
  }

  /** After the merge, everything the update says holds. */
  lemma {:induction false} DeepUpdateSubsumes(base: map<string, Value>, upd: map<string, Value>)
    ensures Subsumes(DeepUpdate(base, upd), upd)
    decreases JObj(upd)
  {
    var r := DeepUpdate(base, upd);
    forall k | k in upd && upd[k].JObj? && r[k].JObj?
      ensures Subsumes(r[k].fields, upd[k].fields)
    {
      if Nested(base, upd, k) {
        DeepUpdateSubsumes(base[k].fields, upd[k].fields);
      } else {
        SubsumesSelf(upd[k].fields);
      }
    }
  }

  /** Merging an update that already holds changes nothing. */
  lemma {:induction false} DeepUpdateFixed(m: map<string, Value>, upd: map<string, Value>)
    requires Subsumes(m, upd)
    ensures DeepUpdate(m, upd) == m
    decreases JObj(upd)
  {
    var r := DeepUpdate(m, upd);
    forall k | k in m ensures r[k] == m[k] {
      if k in upd && Nested(m, upd, k) {
        DeepUpdateFixed(m[k].fields, upd[k].fields);
      }
    }
  }

  /** A merge leaves the value alone exactly when the update already holds in it. */
  lemma DeepUpdateNoOp(m: map<string, Value>, upd: map<string, Value>)
    ensures DeepUpdate(m, upd) == m <==> Subsumes(m, upd)
  {
    if Subsumes(m, upd) {
      DeepUpdateFixed(m, upd);
    } else {
      DeepUpdateSubsumes(m, upd);
    }
  }

  /** Applying the same update twice is applying it once. */
  lemma DeepUpdateIdempotent(base: map<string, Value>, upd: map<string, Value>)
    ensures DeepUpdate(DeepUpdate(base, upd), upd) == DeepUpdate(base, upd)
  {
    DeepUpdateSubsumes(base, upd);
    DeepUpdateFixed(DeepUpdate(base, upd), upd);
  }
}
