/** `BaseTableTemplate.populate_fields`: copying the entries of a dictionary onto the
    columns of a table record. */
module CommonDatabase {
  import opened Wrappers

  /** A column value, `Null` standing for Python's `None`. */
  datatype Value = Null | Int(i: int) | Str(s: string)

  /** A dictionary key: a `str`, or a key of any other type. */
  datatype Key = StrKey(name: string) | OtherKey(tag: int)

  const NotStrDictMessage := "Data_dict is not of type Dict<String, Any>"

  predicate AllStrKeys(data: map<Key, Value>) {
    forall key :: key in data ==> key.StrKey?
  }

  /** Whether the value for `name` goes into a field that currently holds `current`: when the
      dictionary has the name, and the field is `None` or overwriting is asked for. */
  predicate Replaces(data: map<Key, Value>, name: string, current: Value, overwrite: bool) {
    StrKey(name) in data && (current == Null || overwrite)
  }

  /** The fields after the population. */
  function Populated(fields: map<string, Value>, data: map<Key, Value>, overwrite: bool): (r: map<string, Value>)
    ensures r.Keys == fields.Keys
  {
    map name | name in fields ::
      if Replaces(data, name, fields[name], overwrite) then data[StrKey(name)] else fields[name]
  }

  /** Keys that are not fields of the record add nothing and change nothing. */
  lemma UnknownKeysIgnored(fields: map<string, Value>, data: map<Key, Value>, name: string, v: Value, overwrite: bool)
    requires name !in fields
    ensures Populated(fields, data[StrKey(name) := v], overwrite) == Populated(fields, data, overwrite)
  {
    var a := Populated(fields, data[StrKey(name) := v], overwrite);
    var b := Populated(fields, data, overwrite);
    forall n | n in fields ensures a[n] == b[n] {
      assert n != name;
    }
  }

  /** With overwriting every field named in the dictionary takes the dictionary's value. */
  lemma OverwriteTakesAll(fields: map<string, Value>, data: map<Key, Value>)
    ensures var r := Populated(fields, data, true);
      forall name :: name in fields ==> r[name] == if StrKey(name) in data then data[StrKey(name)] else fields[name]
  {
  }

  /** Without overwriting a field that holds a value keeps it; only `None` fields are filled. */
  lemma FillOnlyKeepsValues(fields: map<string, Value>, data: map<Key, Value>, name: string)
    requires name in fields && fields[name] != Null
    ensures Populated(fields, data, false)[name] == fields[name]
  {
  }

  /** Populating twice with the same dictionary gives what populating once did. */
  lemma PopulateIdempotent(fields: map<string, Value>, data: map<Key, Value>, overwrite: bool)
    ensures Populated(Populated(fields, data, overwrite), data, overwrite) == Populated(fields, data, overwrite)
  {
    var once := Populated(fields, data, overwrite);
    var twice := Populated(once, data, overwrite);
    forall name | name in fields ensures twice[name] == once[name] {
      if Replaces(data, name, once[name], overwrite) {
        assert Replaces(data, name, fields[name], overwrite) || once[name] == fields[name];
      }
    }
  }

  /** A table record: the value of each of its columns. */
  class Record {
    var fields: map<string, Value>

    constructor(fields0: map<string, Value>)
      ensures fields == fields0
    {
      fields := fields0;
    }

    /** `populate_fields`: `data` is `None` when the argument is not a dictionary. The
        assertion on the argument's type is checked before any field changes; the record
        itself is returned for chaining. */
    method PopulateFields(data: Option<map<Key, Value>>, overwrite: bool) returns (r: Result<Record>)
      modifies this
      ensures r.Ok? <==> data.Some? && AllStrKeys(data.value)
      ensures r.Ok? ==> r.value == this && fields == Populated(old(fields), data.value, overwrite)
      ensures r.Err? ==> r.error == Error(AssertionError, NotStrDictMessage) && fields == old(fields)
    {
      if data.None? || !AllStrKeys(data.value) {
        return Raise(AssertionError, NotStrDictMessage);
      }
      var dict := data.value;
      ghost var initial := fields;
      var remaining := dict.Keys;
      while remaining != {}
        invariant remaining <= dict.Keys
        invariant fields.Keys == initial.Keys
        invariant forall name :: name in fields ==>
          fields[name] == if StrKey(name) !in remaining && Replaces(dict, name, initial[name], overwrite)
                          then dict[StrKey(name)] else initial[name]
        decreases remaining
      {
        var key :| key in remaining;
        var name := key.name;
        if name in fields && (fields[name] == Null || overwrite) {
          fields := fields[name := dict[key]];
        }
        remaining := remaining - {key};
      }
      r := Ok(this);
    }
  }
}
