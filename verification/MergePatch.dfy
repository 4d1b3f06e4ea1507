/** JSON merge patch, as the Runner applies updates to a CR or a fixture. */
module MergePatch {
  /** A value that is neither null, an array nor an object is kept as its text. */
  datatype Json =
    | Null
    | Scalar(text: string)
    | Array(items: seq<Json>)
    | Object(fields: map<string, Json>)

  type Fields = map<string, Json>

  /** The result that section 2 of RFC 7386 defines for any target and patch. A
      target without the field is given as null, which is not an object either. */
  function Merged(target: Json, patch: Json): Json
    decreases patch
  {
    if !patch.Object? then patch
    else
      var into := if target.Object? then target.fields else map[];
      Object(map name | name in into.Keys + patch.fields.Keys && !(name in patch.fields && patch.fields[name].Null?)
             :: if name in patch.fields then Merged(Field(into, name), patch.fields[name]) else into[name])
  }

  function Field(fields: Fields, name: string): Json {
    if name in fields then fields[name] else Null
  }

  /** The field is as the patch leaves it if it is among those done, and as it was
      otherwise. */
  ghost predicate FieldMerged(fields: Fields, patch: Fields, done: set<string>, merged: Fields, name: string)
    requires done <= patch.Keys
  {
    if name in done then
      if patch[name].Null? then name !in merged
      else name in merged && merged[name] == Merged(Field(fields, name), patch[name])
    else
      && (name in merged <==> name in fields)
      && Field(merged, name) == Field(fields, name)
  }

  /** Applies an object patch field by field, in any order, and gives the result the
      standard defines. */
  method Apply(fields: Fields, patch: Fields) returns (merged: Fields)
    ensures Object(merged) == Merged(Object(fields), Object(patch))
    decreases Object(patch), 1
  {
    merged := fields;
    var todo, done := patch.Keys, {};
    while todo != {}
      invariant todo !! done && todo + done == patch.Keys
      invariant forall name :: FieldMerged(fields, patch, done, merged, name)
      decreases todo
    {
      var name :| name in todo;
      assert FieldMerged(fields, patch, done, merged, name);
      ghost var before, was := merged, done;
      merged := ApplyField(merged, patch, name);
      todo, done := todo - {name}, done + {name};
      forall other ensures FieldMerged(fields, patch, done, merged, other) {
        assert FieldMerged(fields, patch, was, before, other);
        assert other != name ==> Field(merged, other) == Field(before, other);
      }
    }
    MergedByField(fields, patch, merged);
  }

  method ApplyField(fields: Fields, patch: Fields, name: string) returns (merged: Fields)
    requires name in patch
    ensures forall other :: other != name ==> (other in merged <==> other in fields) && Field(merged, other) == Field(fields, other)
    ensures if patch[name].Null? then name !in merged else name in merged && merged[name] == Merged(Field(fields, name), patch[name])
    decreases Object(patch), 0
  {
    var value := patch[name];
    if value.Null? {
      merged := fields - {name};
    } else if !value.Object? {
      merged := fields[name := value];
    } else {
      assert value in Object(patch).fields.Values;
      var into := if Field(fields, name).Object? then Field(fields, name).fields else map[];
      var nested := Apply(into, value.fields);
      merged := fields[name := Object(nested)];
      assert Object(value.fields) == value;
    }
  }

  lemma MergedByField(fields: Fields, patch: Fields, merged: Fields)
    requires forall name :: FieldMerged(fields, patch, patch.Keys, merged, name)
    ensures Object(merged) == Merged(Object(fields), Object(patch))
  {
    var result := Merged(Object(fields), Object(patch)).fields;
    forall name ensures name in merged <==> name in result {
      assert FieldMerged(fields, patch, patch.Keys, merged, name);
    }
    forall name | name in merged ensures merged[name] == result[name] {
      assert FieldMerged(fields, patch, patch.Keys, merged, name);
    }
    assert merged.Keys == result.Keys;
    assert merged == result;
  }

  /** A field the patch does not mention stays as it was, present or not. */
  lemma UnmentionedStays(fields: Fields, patch: Fields, name: string)
    requires name !in patch
    ensures name in Merged(Object(fields), Object(patch)).fields <==> name in fields
    ensures Field(Merged(Object(fields), Object(patch)).fields, name) == Field(fields, name)
  {
  }

  /** Applying a patch twice is applying it once, for every target and patch. */
  lemma {:induction false} Idempotent(target: Json, patch: Json)
    ensures Merged(Merged(target, patch), patch) == Merged(target, patch)
    decreases patch
  {
    if patch.Object? {
      var into := if target.Object? then target.fields else map[];
      var once := Merged(target, patch);
      var twice := Merged(once, patch);
      assert twice.fields.Keys == once.fields.Keys;
      forall name | name in once.fields ensures twice.fields[name] == once.fields[name] {
        if name in patch.fields {
          assert once.fields[name] == Merged(Field(into, name), patch.fields[name]);
          Idempotent(Field(into, name), patch.fields[name]);
        }
      }
      assert twice.fields == once.fields;
    }
  }

  /** No object inside the value, outside arrays, has a null field. */
  predicate NoNullFields(value: Json) {
    value.Object? ==> forall name :: name in value.fields ==> !value.fields[name].Null? && NoNullFields(value.fields[name])
  }

  /** A null in a patch removes a field and is never stored: patching a value that
      holds no null field leaves none. */
  lemma {:induction false} PatchStoresNoNull(target: Json, patch: Json)
    requires NoNullFields(target)
    ensures NoNullFields(Merged(target, patch))
    decreases patch
  {
    if patch.Object? {
      var into := if target.Object? then target.fields else map[];
      var merged := Merged(target, patch).fields;
      forall name | name in merged ensures !merged[name].Null? && NoNullFields(merged[name]) {
        if name in patch.fields {
          PatchStoresNoNull(Field(into, name), patch.fields[name]);
        }
      }
    }
  }

  // Field by field, at any depth.

  /** What stands at the end of a path of field names, if anything does. */
  function At(value: Json, path: seq<string>): Lookup {
    if path == [] then Found(value)
    else if value.Object? && path[0] in value.fields then At(value.fields[path[0]], path[1..])
    else Absent
  }

  datatype Lookup = Absent | Found(value: Json)

  /** The patch says something of the path: it holds a value there, or a value that is
      no object on the way. */
  predicate Mentions(patch: Json, path: seq<string>) {
    path == [] || !patch.Object? || (path[0] in patch.fields && Mentions(patch.fields[path[0]], path[1..]))
  }

  /** What the patch does not mention stays as it was, at any depth. */
  lemma {:induction false} UnmentionedStaysDeep(target: Json, patch: Json, path: seq<string>)
    requires !Mentions(patch, path)
    ensures At(Merged(target, patch), path) == At(target, path)
    decreases path
  {
    var name := path[0];
    var into := if target.Object? then target.fields else map[];
    if name in patch.fields {
      UnmentionedStaysDeep(Field(into, name), patch.fields[name], path[1..]);
      assert path[1..] != [];
    }
  }

  /** A value in the patch that is no object stands where the patch has it, and a null
      leaves nothing there. */
  lemma {:induction false} MentionedIsSet(target: Json, patch: Json, path: seq<string>)
    requires At(patch, path).Found? && !At(patch, path).value.Object? && path != []
    ensures At(Merged(target, patch), path) == if At(patch, path).value.Null? then Absent else At(patch, path)
    decreases path
  {
    var name := path[0];
    var into := if target.Object? then target.fields else map[];
    if path[1..] != [] {
      MentionedIsSet(Field(into, name), patch.fields[name], path[1..]);
    }
  }

  /** Where the patch has an object, so has the result. */
  lemma {:induction false} ObjectIsMade(target: Json, patch: Json, path: seq<string>)
    requires At(patch, path).Found? && At(patch, path).value.Object?
    ensures At(Merged(target, patch), path).Found? && At(Merged(target, patch), path).value.Object?
    decreases path
  {
    if path != [] {
      var into := if target.Object? then target.fields else map[];
      ObjectIsMade(Field(into, path[0]), patch.fields[path[0]], path[1..]);
    }
  }
}
