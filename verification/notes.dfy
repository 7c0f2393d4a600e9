/**
 * The note entity of api/src/models/note.entity.js: its constructor,
 * `toJSON`, and `fromSequelize`, which accepts whatever the ORM hands back.
 */
module Notes {
  import opened Wrappers
  import opened JsValue

  /** A plain object: its own properties by name. */
  type Record = map<string, Value>

  /** The five fields a note carries. */
  const NoteFields: set<string> := {"id", "title", "content", "created_at", "updated_at"}

  /** Reading a property: a missing one is `undefined`. */
  function Get(r: Record, key: string): Value {
    if key in r then r[key] else Undefined
  }

  datatype NoteEntity = NoteEntity(id: Value, title: Value, content: Value, createdAt: Value, updatedAt: Value)

  /** `new NoteEntity({ id, title, content, created_at, updated_at })`: the destructured fields, `undefined` when absent. */
  function Construct(attrs: Record): (e: NoteEntity) {
    NoteEntity(Get(attrs, "id"), Get(attrs, "title"), Get(attrs, "content"),
               Get(attrs, "created_at"), Get(attrs, "updated_at"))
  }

  /** `toJSON()`: a plain object holding the five fields. */
  function ToJSON(e: NoteEntity): (r: Record) {
    map["id" := e.id, "title" := e.title, "content" := e.content,
        "created_at" := e.createdAt, "updated_at" := e.updatedAt]
  }

  /**
   * What `fromSequelize` may be given. `Falsy` is any value `!x` holds for.
   * Otherwise an object with its own properties; `toJSON` is `Some(r)` when
   * it has a callable `toJSON` that returns `r`; `get` likewise for
   * `get({ plain: true })`; `dataValues` is `Some(r)` when that property
   * holds an object `r`, and `None` when it is absent or falsy.
   */
  datatype Candidate =
    | Falsy
    | Instance(own: Record, toJSON: Option<Record>, get: Option<Record>, dataValues: Option<Record>)

  /** The object `fromSequelize` reads the fields from, in its order of preference. */
  function NoteData(c: Candidate): (data: Record)
    requires c.Instance?
  {
    if c.toJSON.Some? then c.toJSON.value
    else if c.get.Some? then c.get.value
    else c.dataValues.GetOr(c.own)
  }

  function FromSequelize(c: Candidate): (r: Option<NoteEntity>)
    ensures r.None? <==> c.Falsy?
  {
    if c.Falsy? then None
    else
      var data := NoteData(c);
      Some(Construct(map["id" := Get(data, "id"), "title" := Get(data, "title"),
                         "content" := Get(data, "content"), "created_at" := Get(data, "created_at"),
                         "updated_at" := Get(data, "updated_at")]))
  }

  /** An entity seen as an object: its five own fields and the class's `toJSON` method. */
  function AsInstance(e: NoteEntity): Candidate {
    Instance(ToJSON(e), Some(ToJSON(e)), None, None)
  }

  /** A plain object, such as the result of `toJSON()`: no methods, no `dataValues`. */
  function Plain(r: Record): Candidate {
    Instance(r, None, None, None)
  }

  /** `toJSON()` returns exactly the five fields given to the constructor, unchanged. */
  lemma ToJSONOfConstruct(attrs: Record)
    ensures ToJSON(Construct(attrs)).Keys == NoteFields
    ensures forall k :: k in NoteFields ==> ToJSON(Construct(attrs))[k] == Get(attrs, k)
  {
  }

  /** Constructing from `toJSON()` rebuilds the entity. */
  lemma ConstructOfToJSON(e: NoteEntity)
    ensures Construct(ToJSON(e)) == e
  {
  }

  /**
   * The source `fromSequelize` reads: `toJSON()` first, then
   * `get({ plain: true })`, then `dataValues`, then the object itself.
   */
  lemma SourcePriority(own: Record, toJSON: Option<Record>, get: Option<Record>, dataValues: Option<Record>)
    ensures toJSON.Some? ==>
      FromSequelize(Instance(own, toJSON, get, dataValues)) == Some(Construct(toJSON.value))
    ensures toJSON.None? && get.Some? ==>
      FromSequelize(Instance(own, toJSON, get, dataValues)) == Some(Construct(get.value))
    ensures toJSON.None? && get.None? && dataValues.Some? ==>
      FromSequelize(Instance(own, toJSON, get, dataValues)) == Some(Construct(dataValues.value))
    ensures toJSON.None? && get.None? && dataValues.None? ==>
      FromSequelize(Instance(own, toJSON, get, dataValues)) == Some(Construct(own))
  {
  }

  /**
   * The result carries the five fields of the chosen source and nothing
   * else: its `toJSON()` has exactly the note fields, and sources that agree
   * on those fields give the same entity whatever else they hold.
   */
  lemma ProjectsNoteFields(c: Candidate, d: Candidate)
    requires c.Instance? && d.Instance?
    requires forall k :: k in NoteFields ==> Get(NoteData(c), k) == Get(NoteData(d), k)
    ensures ToJSON(FromSequelize(c).value).Keys == NoteFields
    ensures forall k :: k in NoteFields ==> ToJSON(FromSequelize(c).value)[k] == Get(NoteData(c), k)
    ensures FromSequelize(c) == FromSequelize(d)
  {
  }

  /** Round trip through an entity: `fromSequelize(e).toJSON()` equals `e.toJSON()`. */
  lemma EntityRoundTrip(e: NoteEntity)
    ensures FromSequelize(AsInstance(e)) == Some(e)
    ensures ToJSON(FromSequelize(AsInstance(e)).value) == ToJSON(e)
  {
  }

  /** Round trip through a plain object: `fromSequelize(e.toJSON()).toJSON()` equals `e.toJSON()`. */
  lemma PlainRoundTrip(e: NoteEntity)
    ensures FromSequelize(Plain(ToJSON(e))) == Some(e)
    ensures ToJSON(FromSequelize(Plain(ToJSON(e))).value) == ToJSON(e)
  {
  }

  /** Mapping an already mapped note again changes nothing. */
  lemma FromSequelizeIdempotent(c: Candidate)
    requires c.Instance?
    ensures FromSequelize(AsInstance(FromSequelize(c).value)) == FromSequelize(c)
  {
  }
}
