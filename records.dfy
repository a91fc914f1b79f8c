/**
  DNS records as the client library represents them: a `Record` is built
  from Python keyword arguments, where a missing `type` defaults to "A", a
  missing `ttl` to the integer 3600 and every other missing field to None,
  and `as_dict` turns it back into a dictionary with one key per field.
*/
module Records {

  /** The Python values that reach a record's fields or a form payload. */
  datatype Value = Null | Str(s: string) | Int(i: int) | Bool(b: bool)

  /** Keyword arguments, or any str-keyed dictionary. */
  type Kwargs = map<string, Value>

  datatype Record = Record(
    name: Value,
    recordType: Value,
    address: Value,
    distance: Value,
    weight: Value,
    port: Value,
    caaFlag: Value,
    caaTag: Value,
    dyndns: Value,
    ttl: Value,
    recordId: Value)

  /** The keys of `Record.as_dict`. */
  const RecordKeys: set<string> :=
    {"name", "type", "address", "distance", "weight", "port",
     "caa_flag", "caa_tag", "dyndns", "ttl", "record_id"}

  /** Python's `dict.get(key, default)`. */
  function Get(kwargs: Kwargs, key: string, default: Value): Value
  {
    if key in kwargs then kwargs[key] else default
  }

  /** The value `Record.__init__` falls back to when `key` is not passed. */
  function Default(key: string): Value
  {
    if key == "type" then Str("A")
    else if key == "ttl" then Int(3600)
    else Null
  }

  /** `Record(**kwargs)`. */
  function NewRecord(kwargs: Kwargs): Record
  {
    Record(
      name := Get(kwargs, "name", Null),
      recordType := Get(kwargs, "type", Str("A")),
      address := Get(kwargs, "address", Null),
      distance := Get(kwargs, "distance", Null),
      weight := Get(kwargs, "weight", Null),
      port := Get(kwargs, "port", Null),
      caaFlag := Get(kwargs, "caa_flag", Null),
      caaTag := Get(kwargs, "caa_tag", Null),
      dyndns := Get(kwargs, "dyndns", Null),
      ttl := Get(kwargs, "ttl", Int(3600)),
      recordId := Get(kwargs, "record_id", Null))
  }

  /** `Record.as_dict()`: exactly the eleven field keys. */
  function AsDict(r: Record): (m: map<string, Value>)
    ensures m.Keys == RecordKeys
  {
    map[
      "name" := r.name,
      "type" := r.recordType,
      "address" := r.address,
      "distance" := r.distance,
      "weight" := r.weight,
      "port" := r.port,
      "caa_flag" := r.caaFlag,
      "caa_tag" := r.caaTag,
      "dyndns" := r.dyndns,
      "ttl" := r.ttl,
      "record_id" := r.recordId]
  }

  /**
    Each key of `as_dict` of a freshly built record holds the keyword argument
    of that name when it was passed, and the field's default otherwise.
  */
  lemma NewRecordFields(kwargs: Kwargs)
    ensures forall key | key in RecordKeys ::
      AsDict(NewRecord(kwargs))[key] == Get(kwargs, key, Default(key))
  {
    var r := NewRecord(kwargs);
    var m := AsDict(r);
    forall key | key in RecordKeys
      ensures m[key] == Get(kwargs, key, Default(key))
    {
      if key == "type" {
        assert m[key] == r.recordType;
      } else if key == "ttl" {
        assert m[key] == r.ttl;
      }
    }
  }

  /**
    A record built without any of its field names has type "A", ttl 3600 and
    None everywhere else; keyword arguments that are not field names are ignored.
  */
  lemma NewRecordDefaults(kwargs: Kwargs)
    requires forall key | key in kwargs :: key !in RecordKeys
    ensures NewRecord(kwargs) == Record(Null, Str("A"), Null, Null, Null, Null, Null, Null, Null, Int(3600), Null)
  {
    assert "name" !in kwargs && "type" !in kwargs && "address" !in kwargs;
    assert "distance" !in kwargs && "weight" !in kwargs && "port" !in kwargs;
    assert "caa_flag" !in kwargs && "caa_tag" !in kwargs && "dyndns" !in kwargs;
    assert "ttl" !in kwargs && "record_id" !in kwargs;
  }

  /** Only the field names among the keyword arguments matter. */
  lemma NewRecordIgnoresOtherKeys(kwargs: Kwargs)
    ensures NewRecord(kwargs) == NewRecord(map key | key in kwargs && key in RecordKeys :: kwargs[key])
  {
  }

  /** Rebuilding a record from its own dictionary gives the same record back. */
  lemma AsDictRoundTrip(r: Record)
    ensures NewRecord(AsDict(r)) == r
  {
  }

  /** A dictionary with exactly the field keys is the dictionary of the record built from it. */
  lemma NewRecordRoundTrip(kwargs: Kwargs)
    requires kwargs.Keys == RecordKeys
    ensures AsDict(NewRecord(kwargs)) == kwargs
  {
    var m := AsDict(NewRecord(kwargs));
    NewRecordFields(kwargs);
    assert forall key | key in RecordKeys :: m[key] == kwargs[key];
  }
}
