/** The compiled schema and the document validator. */
module Schema {
  import opened Lex
  import opened Json

  datatype FieldType = IdType | StringType | NumberType | BoolType | EnumType | DateType
                     | ArrayType(inner: FieldType)

  /** `min` and `max` are the bit patterns of doubles. */
  datatype FieldIr = FieldIr(
    name: Text, ty: FieldType, optional: bool, nullable: bool,
    min: Option<nat>, max: Option<nat>, int_: bool, email: bool,
    regex: Option<Text>, variants: seq<Text>)

  datatype IndexIr = IndexIr(field: Text, unique: bool)

  datatype CollectionIr = CollectionIr(idField: Text, fields: seq<FieldIr>, indexes: seq<IndexIr>)
  {
    /** The first field of that name. */
    function Field(name: Text): Option<FieldIr> { FindField(fields, name) }
  }

  datatype SchemaIr = SchemaIr(collections: map<Text, CollectionIr>)

  function FindField(fields: seq<FieldIr>, name: Text): (r: Option<FieldIr>)
    ensures r.Some? ==> r.value in fields && r.value.name == name
    ensures r.None? <==> forall f :: f in fields ==> f.name != name
  {
    if fields == [] then None
    else if fields[0].name == name then Some(fields[0])
    else FindField(fields[1..], name)
  }

  // ---- compiling a descriptor ------------------------------------------------------------

  datatype RawField = RawField(
    name: Text, ty: Text, optional: bool, nullable: bool,
    min: Option<nat>, max: Option<nat>, int_: bool, email: bool,
    regex: Option<Text>, variants: seq<Text>, items: Option<RawField>)

  datatype RawCollection = RawCollection(idField: Text, fields: seq<RawField>, indexes: seq<IndexIr>)

  function ParseFieldType(raw: RawField): Result<FieldType>
    decreases raw
  {
    if raw.ty == T("id") then Ok(IdType)
    else if raw.ty == T("string") then Ok(StringType)
    else if raw.ty == T("number") then Ok(NumberType)
    else if raw.ty == T("boolean") then Ok(BoolType)
    else if raw.ty == T("enum") then Ok(EnumType)
    else if raw.ty == T("date") then Ok(DateType)
    else if raw.ty == T("array") then
      if raw.items.None? || raw.items.value.ty == T("id") then Err(SchemaError)
      else match ParseFieldType(raw.items.value)
        case Ok(inner) => Ok(ArrayType(inner))
        case Err(e) => Err(e)
    else Err(SchemaError)
  }

  function CompileFields(raw: seq<RawField>): Result<seq<FieldIr>> {
    if raw == [] then Ok([]) else
      match ParseFieldType(raw[0])
      case Err(e) => Err(e)
      case Ok(ty) =>
        var f := raw[0];
        match CompileFields(raw[1..])
        case Err(e) => Err(e)
        case Ok(rest) =>
          Ok([FieldIr(f.name, ty, f.optional, f.nullable, f.min, f.max, f.int_, f.email, f.regex, f.variants)] + rest)
  }

  /** An index may only stand on a required, non-null, non-array field. */
  predicate Indexable(fields: seq<FieldIr>, field: Text) {
    var f := FindField(fields, field);
    f.Some? && !f.value.optional && !f.value.nullable && !f.value.ty.ArrayType?
  }

  function CompileIndexes(raw: seq<IndexIr>, fields: seq<FieldIr>): Result<seq<IndexIr>> {
    if raw == [] then Ok([])
    else if !Indexable(fields, raw[0].field) then Err(SchemaError)
    else match CompileIndexes(raw[1..], fields)
      case Err(e) => Err(e)
      case Ok(rest) => Ok([raw[0]] + rest)
  }

  function CompileCollection(raw: RawCollection): Result<CollectionIr> {
    match CompileFields(raw.fields)
    case Err(e) => Err(e)
    case Ok(fields) =>
      if !exists f :: f in fields && f.name == raw.idField && f.ty == IdType then Err(SchemaError)
      else match CompileIndexes(raw.indexes, fields)
        case Err(e) => Err(e)
        case Ok(indexes) => Ok(CollectionIr(raw.idField, fields, indexes))
  }

  /** `_meta` is reserved for the migration ledger. */
  function Compile(raw: map<Text, RawCollection>): Result<SchemaIr> {
    if T("_meta") in raw || exists c :: c in raw && CompileCollection(raw[c]).Err? then Err(SchemaError)
    else Ok(SchemaIr(map c | c in raw :: CompileCollection(raw[c]).value))
  }

  /** What compilation guarantees about a collection. */
  predicate WellFormed(ir: CollectionIr) {
    && (exists f :: f in ir.fields && f.name == ir.idField && f.ty == IdType)
    && (forall i :: i in ir.indexes ==> Indexable(ir.fields, i.field))
  }

  lemma {:induction false} CompileIndexesIndexable(raw: seq<IndexIr>, fields: seq<FieldIr>)
    requires CompileIndexes(raw, fields).Ok?
    ensures CompileIndexes(raw, fields).value == raw
    ensures forall i :: i in raw ==> Indexable(fields, i.field)
  {
    if raw != [] {
      CompileIndexesIndexable(raw[1..], fields);
      assert raw == [raw[0]] + raw[1..];
    }
  }

  lemma CompiledIsWellFormed(raw: map<Text, RawCollection>, c: Text)
    requires Compile(raw).Ok? && c in raw
    ensures c in Compile(raw).value.collections && WellFormed(Compile(raw).value.collections[c])
    ensures T("_meta") !in Compile(raw).value.collections
  {
    var fields := CompileFields(raw[c].fields).value;
    CompileIndexesIndexable(raw[c].indexes, fields);
  }

  // ---- validation --------------------------------------------------------------------

  /** A schema together with the foreign checks (length, range, email, regex) on one value. */
  datatype Env = Env(schema: SchemaIr, constraintOk: (FieldIr, FieldType, Value) -> bool)
  {
    ghost predicate Compiled() {
      forall c :: c in schema.collections ==> WellFormed(schema.collections[c])
    }
  }

  predicate HasType(ty: FieldType, v: Value) {
    match ty
    case IdType => v.Str?
    case StringType => v.Str?
    case EnumType => v.Str?
    case DateType => v.Str?
    case NumberType => v.Num?
    case BoolType => v.Bool?
    case ArrayType(_) => v.Arr?
  }

  predicate CheckValue(env: Env, ty: FieldType, f: FieldIr, v: Value)
    decreases ty
  {
    && HasType(ty, v)
    && (ty.EnumType? ==> v.s in f.variants)
    && (ty.ArrayType? ==> forall x :: x in v.items ==> CheckValue(env, ty.inner, f, x))
    && env.constraintOk(f, ty, v)
  }

  predicate FieldAccepts(env: Env, f: FieldIr, v: Option<Value>) {
    match v
    case None => f.optional
    case Some(Null) => f.nullable
    case Some(x) => CheckValue(env, f.ty, f, x)
  }

  /** `validate_document`: every error it reports is a schema error. */
  predicate Validates(env: Env, ir: CollectionIr, doc: Value) {
    && doc.Obj?
    && (forall k :: k in doc.fields ==> ir.Field(k).Some?)
    && (forall f :: f in ir.fields ==> FieldAccepts(env, f, doc.Get(f.name)))
  }

  /** Indexed fields of a valid document are present scalars of the field's own type. */
  lemma IndexedFieldIsScalar(env: Env, ir: CollectionIr, doc: Value, idx: IndexIr)
    requires WellFormed(ir) && Validates(env, ir, doc) && idx in ir.indexes
    ensures ir.Field(idx.field).Some? && doc.Get(idx.field).Some?
    ensures HasType(ir.Field(idx.field).value.ty, doc.Get(idx.field).value)
    ensures var v := doc.Get(idx.field).value; v.Str? || v.Num? || v.Bool?
  {
    assert Indexable(ir.fields, idx.field);
    var f := ir.Field(idx.field).value;
    assert FieldAccepts(env, f, doc.Get(f.name));
  }
}
