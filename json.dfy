/**
 * Request bodies and document objects, and the casts Mongoose applies when a
 * value is assigned to a typed schema path.
 */
module Json {
  import opened Wrappers
  import opened Text

  /**
   * A value in a parsed request body or a document object. `Other` stands for
   * every value the core never accepts into a typed path: null, nested objects,
   * non-integral numbers.
   */
  datatype Value =
    | Str(s: string)
    | Num(n: int)
    | Bool(b: bool)
    | ObjectId(id: nat)
    | List(items: seq<Value>)
    | Binary(bytes: seq<bv8>)
    | Other

  /** A JSON object: its keys are `Object.keys(req.body)`. */
  type Body = map<string, Value>

  /**
   * One step of a walk over the keys of `body`: key `k` moves from the keys
   * still to visit to the part already visited, which stays a sub-map of `body`.
   */
  lemma TakeKey(body: Body, done: Body, todo: set<string>, k: string)
    requires todo <= body.Keys && done.Keys == body.Keys - todo && k in todo
    requires forall j :: j in done ==> done[j] == body[j]
    ensures k !in done
    ensures todo - {k} <= body.Keys && done[k := body[k]].Keys == body.Keys - (todo - {k})
    ensures forall j :: j in done[k := body[k]] ==> done[k := body[k]][j] == body[j]
  {
  }

  /** Mongoose's String cast: strings as they are, numbers and booleans rendered. */
  function CastString(v: Value): (r: Option<string>)
    ensures r.Some? <==> v.Str? || v.Num? || v.Bool?
    ensures v.Str? ==> r == Some(v.s)
  {
    match v
    case Str(s) => Some(s)
    case Num(n) => Some(IntToString(n))
    case Bool(b) => Some(if b then "true" else "false")
    case _ => None
  }

  /** A number cast to a string is rendered in decimal, and parsing it gives the number back. */
  lemma CastStringOfNumber(n: int)
    ensures CastString(Num(n)).Some? && ParseInt(CastString(Num(n)).value) == Some(n)
  {
    ParseIntToString(n);
  }

  /** Mongoose's Boolean cast: the fixed lists of values read as true and as false. */
  function CastBoolean(v: Value): (r: Option<bool>)
    ensures v.Bool? ==> r == Some(v.b)
    ensures v.Num? ==> (r.Some? <==> v.n == 0 || v.n == 1) && (r == Some(true) <==> v.n == 1)
    ensures r.Some? ==> v.Bool? || v.Num? || v.Str?
  {
    match v
    case Bool(b) => Some(b)
    case Num(n) => if n == 1 then Some(true) else if n == 0 then Some(false) else None
    case Str(s) =>
      if s == "true" || s == "1" || s == "yes" then Some(true)
      else if s == "false" || s == "0" || s == "no" then Some(false)
      else None
    case _ => None
  }

  /** A value that casts to a boolean casts to the same boolean when sent as its string form. */
  lemma CastBooleanOfString(v: Value)
    requires CastBoolean(v).Some? && !v.Str?
    ensures CastString(v).Some? && CastBoolean(Str(CastString(v).value)) == CastBoolean(v)
  {
    if v.Num? {
      assert v.n == 0 || v.n == 1;
      assert IntToString(1) == "1" && IntToString(0) == "0";
    }
  }

  /** Mongoose's Number cast, for integers written in decimal. */
  function CastNumber(v: Value): (r: Option<int>)
    ensures v.Num? ==> r == Some(v.n)
    ensures v.Bool? ==> r == Some(if v.b then 1 else 0)
    ensures v.Str? && r.Some? ==> v.s != [] && (v.s[0] == '-' || IsDigit(v.s[0]))
    ensures r.Some? ==> v.Num? || v.Bool? || v.Str?
  {
    match v
    case Num(n) => Some(n)
    case Bool(b) => Some(if b then 1 else 0)
    case Str(s) => ParseInt(s)
    case _ => None
  }

  /** Mongoose's ObjectId cast, for identifiers the store itself handed out. */
  function CastObjectId(v: Value): (r: Option<nat>)
    ensures r.Some? <==> v.ObjectId?
    ensures v.ObjectId? ==> r == Some(v.id)
  {
    match v
    case ObjectId(id) => Some(id)
    case _ => None
  }

  /** A number sent as its decimal string casts back to the same number. */
  lemma CastNumberOfString(n: int)
    ensures CastNumber(Str(IntToString(n))) == Some(n)
  {
    ParseIntToString(n);
  }
}
