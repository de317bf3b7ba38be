/** The shape of the JSON documents the pipeline writes.  Objects are
    dictionaries, so they are maps; key order in the written file and number
    formatting are not modelled. */
module Json {
  import opened Wrappers

  datatype Json =
    | JNull
    | JBool(b: bool)
    | JInt(i: int)
    | JFloat(r: real)
    | JStr(s: string)
    | JArr(items: seq<Json>)
    | JObj(fields: map<string, Json>)

  /** A Python `Optional[str]`: the string or `null`. */
  function OptString(o: Option<string>): Json {
    match o
    case Some(s) => JStr(s)
    case None => JNull
  }

  /** A Python `Optional[int]`: the integer or `null`. */
  function OptInt(o: Option<nat>): Json {
    match o
    case Some(n) => JInt(n)
    case None => JNull
  }

  function Strings(xs: seq<string>): Json {
    JArr(seq(|xs|, i requires 0 <= i < |xs| => JStr(xs[i])))
  }

  /** Reads back `OptString`. */
  function AsOptString(j: Json): Option<Option<string>> {
    match j
    case JStr(s) => Some(Some(s))
    case JNull => Some(None)
    case _ => None
  }

  /** Reads back `OptInt`. */
  function AsOptNat(j: Json): Option<Option<nat>> {
    match j
    case JInt(i) => if i >= 0 then Some(Some(i)) else None
    case JNull => Some(None)
    case _ => None
  }

  /** Reads back `Strings`. */
  function AsStrings(j: Json): (r: Option<seq<string>>)
    ensures j.JArr? && (forall i :: 0 <= i < |j.items| ==> j.items[i].JStr?) ==> r.Some?
  {
    match j
    case JArr(items) =>
      if forall i :: 0 <= i < |items| ==> items[i].JStr? then
        Some(seq(|items|, i requires 0 <= i < |items| => items[i].s))
      else None
    case _ => None
  }

  lemma StringsRoundTrip(xs: seq<string>)
    ensures AsStrings(Strings(xs)) == Some(xs)
  {
    var items := Strings(xs).items;
    assert forall i :: 0 <= i < |items| ==> items[i] == JStr(xs[i]);
    var back := seq(|items|, i requires 0 <= i < |items| => items[i].s);
    assert back == xs;
  }
}
