/**
 * Choosing the tenant's models for a request (utils/tenantModels.js) and the
 * memoising per-connection model registration it relies on in the document
 * database backend (utils/modelFactory.js).
 *
 * The backend is a startup choice (`USE_SUPABASE`); a request carries the
 * tenant id (row-partitioned backend) and/or the tenant's connection
 * (database-per-tenant backend). A connection is modelled by the models
 * registered on it, keyed by model name.
 */
module Dispatch {
  import opened Wrappers
  import opened MemberFacade

  datatype Backend = RowBackend | DocumentBackend

  /** The schemas models/schemas.js exports; the contribution schemas are not among them. */
  datatype SchemaName = MemberSchema | SubgroupSchema | ExpenditureSchema | ReceiptSchema
                      | ReminderSchema | ActivityLogSchema

  /** A model registered on a connection: the name it was registered under and its schema. */
  datatype MongoModel = MongoModel(name: string, schema: SchemaName)

  /** A tenant database connection with the models registered on it. */
  datatype Connection = Connection(database: string, models: map<string, MongoModel>)

  /** The request fields the dispatcher reads, as the tenant middleware leaves them. */
  datatype Request = Request(tenantId: Option<nat>, connection: Option<Connection>)

  /**
   * What a property lookup on the models object yields: a model handle of
   * either backend, or a property every plain object inherits from
   * `Object.prototype` (a function, or the prototype itself for `__proto__`).
   */
  datatype Handle = TableHandle(accessor: Accessor) | DocumentHandle(model: MongoModel) | Inherited(property: string)

  datatype DispatchError =
    | TenantContextMissing
    | ConnectionMissing
    | ConnectionRequired
    | MissingSchema(name: string)
    | UnknownModel(name: string)

  // ---------- utils/modelFactory.js ----------

  /**
   * `getTenantModel(conn, name, schema)`: the model already registered under
   * `name`, or a new registration of `schema` under `name`. Registering without
   * a schema fails, as the document library refuses a model it has no schema for.
   */
  function GetTenantModel(conn: Option<Connection>, name: string, schema: Option<SchemaName>)
    : (r: Result<(Connection, MongoModel), DispatchError>)
    ensures conn.None? ==> r == Err(ConnectionRequired)
    ensures r.Err? <==> conn.None? || (name !in conn.value.models && schema.None?)
    ensures conn.Some? && name in conn.value.models ==> r == Ok((conn.value, conn.value.models[name]))
    ensures r.Ok? ==> r.value.0.database == conn.value.database
                      && name in r.value.0.models && r.value.0.models[name] == r.value.1
    ensures r.Ok? && name !in conn.value.models ==> r.value.1 == MongoModel(name, schema.value)
    ensures r.Ok? ==> forall k :: k != name ==>
                        (k in r.value.0.models <==> k in conn.value.models)
                        && (k in conn.value.models ==> r.value.0.models[k] == conn.value.models[k])
  {
    match conn
    case None => Err(ConnectionRequired)
    case Some(c) =>
      if name in c.models then Ok((c, c.models[name]))
      else
        match schema
        case None => Err(MissingSchema(name))
        case Some(s) =>
          var m := MongoModel(name, s);
          Ok((c.(models := c.models[name := m]), m))
  }

  /** Registration is memoised: asking again for a name returns the same model and changes nothing. */
  lemma RegistrationIdempotent(c: Connection, name: string, schema: Option<SchemaName>, schema2: Option<SchemaName>)
    requires GetTenantModel(Some(c), name, schema).Ok?
    ensures var (c1, m1) := GetTenantModel(Some(c), name, schema).value;
            GetTenantModel(Some(c1), name, schema2) == Ok((c1, m1))
  {
  }

  /** `getModelFromRequest(req, name, schema)`: the factory on the request's connection. */
  function GetModelFromRequest(req: Request, name: string, schema: Option<SchemaName>)
    : (r: Result<(Connection, MongoModel), DispatchError>)
    ensures req.connection.None? ==> r == Err(ConnectionMissing)
    ensures req.connection.Some? ==> r == GetTenantModel(req.connection, name, schema)
  {
    if req.connection.None? then Err(ConnectionMissing)
    else GetTenantModel(req.connection, name, schema)
  }

  // ---------- utils/tenantModels.js ----------

  /** The property name each model is published under, and registered under. */
  function KeyOf(n: ModelName): string
  {
    match n
    case MemberModel => "Member"
    case SubgroupModel => "Subgroup"
    case ExpenditureModel => "Expenditure"
    case ReceiptModel => "Receipt"
    case ReminderModel => "Reminder"
    case ActivityLogModel => "ActivityLog"
    case ContributionTypeModel => "ContributionType"
    case ContributionModel => "Contribution"
  }

  lemma KeyOfInjective(a: ModelName, b: ModelName)
    requires KeyOf(a) == KeyOf(b)
    ensures a == b
  {
  }

  /** The schema passed for each model; the two contribution schemas are undefined imports. */
  function SchemaOf(n: ModelName): Option<SchemaName>
  {
    match n
    case MemberModel => Some(MemberSchema)
    case SubgroupModel => Some(SubgroupSchema)
    case ExpenditureModel => Some(ExpenditureSchema)
    case ReceiptModel => Some(ReceiptSchema)
    case ReminderModel => Some(ReminderSchema)
    case ActivityLogModel => Some(ActivityLogSchema)
    case ContributionTypeModel => None
    case ContributionModel => None
  }

  /** The order in which the eight models are obtained. */
  const ModelOrder: seq<ModelName> := [MemberModel, SubgroupModel, ExpenditureModel, ReceiptModel,
                                       ReminderModel, ActivityLogModel, ContributionTypeModel, ContributionModel]

  lemma ModelOrderComplete(n: ModelName)
    ensures n in ModelOrder
  {
    match n
    case MemberModel =>
    case SubgroupModel =>
    case ExpenditureModel =>
    case ReceiptModel =>
    case ReminderModel =>
    case ActivityLogModel =>
    case ContributionTypeModel =>
    case ContributionModel =>
  }

  /** A model can be obtained from `c` when it is registered already or has a schema. */
  predicate Obtainable(c: Connection, n: ModelName)
  {
    KeyOf(n) in c.models || SchemaOf(n).Some?
  }

  /** Obtaining `names` in order on `c`, threading the connection through the registrations. */
  function RegisterAll(c: Connection, names: seq<ModelName>): (r: Result<Connection, DispatchError>)
    ensures r.Ok? <==> forall i :: 0 <= i < |names| ==> Obtainable(c, names[i])
    ensures r.Ok? ==> r.value.database == c.database
    ensures r.Ok? ==> forall k :: k in c.models ==> k in r.value.models && r.value.models[k] == c.models[k]
    ensures r.Ok? ==> forall i :: 0 <= i < |names| ==> KeyOf(names[i]) in r.value.models
    ensures r.Ok? ==> forall i :: 0 <= i < |names| && KeyOf(names[i]) !in c.models ==>
                        r.value.models[KeyOf(names[i])] == MongoModel(KeyOf(names[i]), SchemaOf(names[i]).value)
    decreases |names|
  {
    if names == [] then Ok(c)
    else
      var n := names[0];
      match GetTenantModel(Some(c), KeyOf(n), SchemaOf(n))
      case Err(e) => Err(e)
      case Ok((c1, _)) =>
        TailObtainable(c, c1, names);
        var rest := RegisterAll(c1, names[1..]);
        if rest.Err? then rest
        else
          assert forall i :: 1 <= i < |names| ==> names[i] == names[1..][i - 1];
          assert forall i :: 0 <= i < |names| && KeyOf(names[i]) !in c.models ==>
                   rest.value.models[KeyOf(names[i])] == MongoModel(KeyOf(names[i]), SchemaOf(names[i]).value) by {
            forall i | 0 <= i < |names| && KeyOf(names[i]) !in c.models
              ensures rest.value.models[KeyOf(names[i])] == MongoModel(KeyOf(names[i]), SchemaOf(names[i]).value)
            {
              if i > 0 && KeyOf(names[i]) == KeyOf(n) {
                KeyOfInjective(names[i], n);
              }
            }
          }
          rest
  }

  lemma TailObtainable(c: Connection, c1: Connection, names: seq<ModelName>)
    requires names != [] && Obtainable(c, names[0])
    requires KeyOf(names[0]) in c1.models
    requires forall k :: k in c.models ==> k in c1.models
    requires forall k :: k in c1.models && k != KeyOf(names[0]) ==> k in c.models
    ensures (forall i :: 0 <= i < |names[1..]| ==> Obtainable(c1, names[1..][i]))
            <==> (forall i :: 0 <= i < |names| ==> Obtainable(c, names[i]))
  {
    forall i | 0 <= i < |names[1..]| ensures names[1..][i] == names[i + 1] { }
    forall i | 1 <= i < |names| && KeyOf(names[i]) == KeyOf(names[0]) ensures Obtainable(c, names[i]) {
      KeyOfInjective(names[i], names[0]);
    }
  }

  /** The row backend: the facade's eight table models bound to the request's tenant. */
  function RowModels(tenantId: Option<nat>): (r: Result<map<ModelName, Handle>, DispatchError>)
    ensures r.Err? <==> tenantId.None?
    ensures r.Err? ==> r.error == TenantContextMissing
    ensures r.Ok? ==> forall n: ModelName :: n in r.value && r.value[n] == TableHandle(Accessor(TableOf(n), tenantId.value))
  {
    match MemberFacade.GetTenantModels(tenantId)
    case Err(_) => Err(TenantContextMissing)
    case Ok(ms) => Ok(map n | n in ms :: TableHandle(ms[n]))
  }

  /** The document backend: the eight models obtained, in order, on the tenant's connection. */
  function DocumentModels(c: Connection): (r: Result<(Connection, map<ModelName, Handle>), DispatchError>)
    ensures r.Ok? <==> forall n: ModelName :: Obtainable(c, n)
    ensures r.Ok? ==>
              var c2 := r.value.0;
              c2.database == c.database
              && (forall k :: k in c.models ==> k in c2.models && c2.models[k] == c.models[k])
              && forall n: ModelName :: n in r.value.1 && KeyOf(n) in c2.models
                   && r.value.1[n] == DocumentHandle(c2.models[KeyOf(n)])
  {
    ObtainableInOrder(c);
    match RegisterAll(c, ModelOrder)
    case Err(e) => Err(e)
    case Ok(c2) =>
      assert forall n: ModelName :: KeyOf(n) in c2.models by {
        forall n: ModelName ensures KeyOf(n) in c2.models {
          ModelOrderComplete(n);
          var i :| 0 <= i < |ModelOrder| && ModelOrder[i] == n;
        }
      }
      assert forall n: ModelName :: n in AllModels by {
        forall n: ModelName ensures n in AllModels { EveryModelListed(n); }
      }
      Ok((c2, map n: ModelName | n in AllModels :: DocumentHandle(c2.models[KeyOf(n)])))
  }

  lemma ObtainableInOrder(c: Connection)
    ensures (forall i :: 0 <= i < |ModelOrder| ==> Obtainable(c, ModelOrder[i]))
            <==> (forall n: ModelName :: Obtainable(c, n))
  {
    if forall i :: 0 <= i < |ModelOrder| ==> Obtainable(c, ModelOrder[i]) {
      forall n: ModelName ensures Obtainable(c, n) {
        ModelOrderComplete(n);
        var i :| 0 <= i < |ModelOrder| && ModelOrder[i] == n;
      }
    }
  }

  /**
   * `getTenantModels(req)`: the eight models of the request's tenant from the
   * chosen backend, failing when the middleware did not leave the context that
   * backend needs.
   */
  function GetTenantModels(backend: Backend, req: Request): (r: Result<(Option<Connection>, map<ModelName, Handle>), DispatchError>)
    ensures backend == RowBackend ==> (r.Err? <==> req.tenantId.None?)
    ensures backend == RowBackend && r.Ok? ==>
              r.value.0 == req.connection
              && forall n: ModelName :: n in r.value.1 && r.value.1[n] == TableHandle(Accessor(TableOf(n), req.tenantId.value))
    ensures backend == DocumentBackend && req.connection.None? ==> r == Err(ConnectionMissing)
    ensures backend == DocumentBackend && req.connection.Some? ==>
              (r.Ok? <==> forall n: ModelName :: Obtainable(req.connection.value, n))
    ensures backend == DocumentBackend && r.Ok? ==>
              r.value.0.Some? && forall n: ModelName :: n in r.value.1 && r.value.1[n].DocumentHandle?
  {
    match backend
    case RowBackend =>
      (match RowModels(req.tenantId)
       case Err(e) => Err(e)
       case Ok(ms) => Ok((req.connection, ms)))
    case DocumentBackend =>
      match req.connection
      case None => Err(ConnectionMissing)
      case Some(c) =>
        match DocumentModels(c)
        case Err(e) => Err(e)
        case Ok((c2, ms)) => Ok((Some(c2), ms))
  }

  /** Once the models are registered, asking for them again changes nothing and returns the same models. */
  lemma DocumentModelsMemoised(c: Connection)
    ensures DocumentModels(c).Ok? ==>
              var (c1, ms) := DocumentModels(c).value;
              DocumentModels(c1) == Ok((c1, ms))
  {
    if DocumentModels(c).Err? { return; }
    var (c1, ms) := DocumentModels(c).value;
    RegisterAllOnRegistered(c1, ModelOrder);
    ObtainableInOrder(c1);
  }

  /** Obtaining models that are all registered leaves the connection as it is. */
  lemma {:induction false} RegisterAllOnRegistered(c: Connection, names: seq<ModelName>)
    requires forall i :: 0 <= i < |names| ==> KeyOf(names[i]) in c.models
    ensures RegisterAll(c, names) == Ok(c)
    decreases |names|
  {
    if names != [] {
      assert forall i :: 0 <= i < |names[1..]| ==> KeyOf(names[1..][i]) in c.models by {
        forall i | 0 <= i < |names[1..]| ensures KeyOf(names[1..][i]) in c.models {
          assert names[1..][i] == names[i + 1];
        }
      }
      RegisterAllOnRegistered(c, names[1..]);
    }
  }

  /** The model name a published property name denotes, if any. */
  function ModelNamed(name: string): (r: Option<ModelName>)
    ensures r.Some? ==> KeyOf(r.value) == name
    ensures r.None? ==> forall n: ModelName :: KeyOf(n) != name
  {
    if name == "Member" then Some(MemberModel)
    else if name == "Subgroup" then Some(SubgroupModel)
    else if name == "Expenditure" then Some(ExpenditureModel)
    else if name == "Receipt" then Some(ReceiptModel)
    else if name == "Reminder" then Some(ReminderModel)
    else if name == "ActivityLog" then Some(ActivityLogModel)
    else if name == "ContributionType" then Some(ContributionTypeModel)
    else if name == "Contribution" then Some(ContributionModel)
    else None
  }

  /** The properties a plain object literal inherits from `Object.prototype`. */
  const InheritedProperties: set<string> :=
    {"constructor", "hasOwnProperty", "isPrototypeOf", "propertyIsEnumerable", "toLocaleString",
     "toString", "valueOf", "__defineGetter__", "__defineSetter__", "__lookupGetter__",
     "__lookupSetter__", "__proto__"}

  /** No model is published under an inherited property's name. */
  lemma ModelNamesNotInherited(n: ModelName)
    ensures KeyOf(n) !in InheritedProperties
  {
  }

  /**
   * `getTenantModelByName(req, name)`: `models[name]` on the object literal of
   * eight models. The `!models[name]` guard lets through any truthy property,
   * so an inherited name yields that inherited property instead of the error.
   */
  function GetTenantModelByName(backend: Backend, req: Request, name: string): (r: Result<Handle, DispatchError>)
    ensures GetTenantModels(backend, req).Err? ==> r == Err(GetTenantModels(backend, req).error)
    ensures GetTenantModels(backend, req).Ok? ==>
              (r.Ok? <==> (exists n: ModelName :: KeyOf(n) == name) || name in InheritedProperties)
    ensures r.Ok? && name !in InheritedProperties ==>
              exists n: ModelName :: KeyOf(n) == name && r.value == GetTenantModels(backend, req).value.1[n]
    ensures r.Ok? && name in InheritedProperties ==> r.value == Inherited(name)
    ensures GetTenantModels(backend, req).Ok? && r.Err? ==> r.error == UnknownModel(name)
  {
    match GetTenantModels(backend, req)
    case Err(e) => Err(e)
    case Ok((_, ms)) =>
      match ModelNamed(name)
      case Some(n) => ModelNamesNotInherited(n); Ok(ms[n])
      case None => if name in InheritedProperties then Ok(Inherited(name)) else Err(UnknownModel(name))
  }

  /** Asking for "constructor" passes the guard and yields `Object`, not the "not found" error. */
  lemma ConstructorPassesGuard(backend: Backend, req: Request)
    requires GetTenantModels(backend, req).Ok?
    ensures GetTenantModelByName(backend, req, "constructor") == Ok(Inherited("constructor"))
    ensures GetTenantModelByName(backend, req, "Members").Err?
  {
    ConstructorInherited();
    MembersNotInherited();
  }

  lemma ConstructorInherited()
    ensures "constructor" in InheritedProperties
  {
  }

  lemma MembersNotInherited()
    ensures "Members" !in InheritedProperties && ModelNamed("Members").None?
  {
  }
}
