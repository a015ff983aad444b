/**
 * The battery ledger: creating, editing and soft-deleting battery rows, with the
 * find-or-create of the model and customer rows a battery references, the list item
 * a row is shown as, and the filter of the ledger list.
 *
 * The three tables are a map of battery rows keyed by id and two sequences of model and
 * customer rows in insertion order; new ids come from counters, as the identity columns
 * hand them out. The unique constraints on battery_code, model_code and customer.name
 * and the NOT NULL constraint on rated_capacity_ah are checked when a row is saved, and
 * a failed operation leaves every table as it was (the transaction is rolled back).
 */
module BatteryLedger {
  import opened Wrappers
  import opened JavaText
  import opened Entities

  /** The status a battery gets when the request names none: in service. */
  const DefaultStatus: int := 1

  /** A row of the `battery_model` table. */
  datatype BatteryModel = BatteryModel(id: int, modelCode: string)

  /** A row of the `customer` table. */
  datatype Customer = Customer(id: int, name: string)

  /** The three ledger tables and the next id of each identity column. */
  datatype Tables = Tables(
    batteries: map<int, Battery>,
    models: seq<BatteryModel>,
    customers: seq<Customer>,
    nextBatteryId: int,
    nextModelId: int,
    nextCustomerId: int)

  /** The text of an ISO-8601 timestamp and what OffsetDateTime.parse makes of it (None: it throws). */
  datatype TimeText = TimeText(text: string, parsed: Option<int>)

  /** BatteryCreateRequest, the body of both the create and the edit call. */
  datatype BatteryRequest = BatteryRequest(
    batteryCode: Option<string>,
    modelCode: Option<string>,
    customerName: Option<string>,
    commissioningDate: Option<int>,
    status: Option<int>,
    ratedCapacityAh: Option<real>,
    sohPercent: Option<real>,
    cycleCount: Option<int>,
    lastRecordAt: Option<TimeText>)

  /** BatteryListItemDto. */
  datatype ListItem = ListItem(
    id: int,
    batteryCode: string,
    modelCode: Option<string>,
    customerName: Option<string>,
    commissioningDate: Option<int>,
    status: int,
    ratedCapacityAh: Option<real>,
    sohPercent: Option<real>,
    cycleCount: Option<int>,
    lastRecordAt: Option<int>)

  /** The exceptions the ledger operations raise. */
  datatype LedgerError =
    | BlankBatteryCode
    | DuplicateBatteryCode
    | BlankModelCode
    | BlankCustomerName
    | BadTimestamp
    | ConstraintViolation
    | BatteryNotFound
    | BatteryDeleted

  // ================================================================ finders

  /** findByModelCode: the model row with that code, if any. */
  function FindModel(models: seq<BatteryModel>, code: string): (r: Option<BatteryModel>)
    ensures r.Some? ==> r.value in models && r.value.modelCode == code
    ensures r.None? <==> forall k :: 0 <= k < |models| ==> models[k].modelCode != code
  {
    if models == [] then None
    else if models[0].modelCode == code then Some(models[0])
    else FindModel(models[1..], code)
  }

  /** findByName: the customer row with that name, if any. */
  function FindCustomer(customers: seq<Customer>, name: string): (r: Option<Customer>)
    ensures r.Some? ==> r.value in customers && r.value.name == name
    ensures r.None? <==> forall k :: 0 <= k < |customers| ==> customers[k].name != name
  {
    if customers == [] then None
    else if customers[0].name == name then Some(customers[0])
    else FindCustomer(customers[1..], name)
  }

  /** The code of the model row with that id (the battery's `model` association). */
  function ModelCodeOf(models: seq<BatteryModel>, id: int): (r: Option<string>)
    ensures r.Some? <==> exists k :: 0 <= k < |models| && models[k].id == id
    ensures r.Some? ==> BatteryModel(id, r.value) in models
  {
    if models == [] then None
    else if models[0].id == id then Some(models[0].modelCode)
    else ModelCodeOf(models[1..], id)
  }

  /** The name of the customer row with that id (the battery's `customer` association). */
  function CustomerNameOf(customers: seq<Customer>, id: int): (r: Option<string>)
    ensures r.Some? <==> exists k :: 0 <= k < |customers| && customers[k].id == id
    ensures r.Some? ==> Customer(id, r.value) in customers
  {
    if customers == [] then None
    else if customers[0].id == id then Some(customers[0].name)
    else CustomerNameOf(customers[1..], id)
  }

  /** existsByBatteryCode: some row, deleted or not, holds the code. */
  predicate CodeTaken(batteries: map<int, Battery>, code: string)
  {
    exists id :: id in batteries && batteries[id].batteryCode == code
  }

  /** existsByBatteryCodeAndIdNot: a row other than self holds the code. */
  predicate CodeTakenByOther(batteries: map<int, Battery>, code: string, self: int)
  {
    exists id :: id in batteries && id != self && batteries[id].batteryCode == code
  }

  // ================================================================ invariant

  /** Every battery row sits under its own id, below the counter, and references existing rows. */
  predicate BatteryRowsValid(t: Tables)
  {
    forall id :: id in t.batteries ==>
      t.batteries[id].id == id && id < t.nextBatteryId &&
      t.batteries[id].ratedCapacityAh.Some? &&
      ModelCodeOf(t.models, t.batteries[id].modelId).Some? &&
      (t.batteries[id].customerId.Some? ==> CustomerNameOf(t.customers, t.batteries[id].customerId.value).Some?)
  }

  /** The unique constraint on battery_code. */
  predicate UniqueBatteryCodes(batteries: map<int, Battery>)
  {
    forall i, j :: i in batteries && j in batteries && batteries[i].batteryCode == batteries[j].batteryCode ==> i == j
  }

  /** Model ids lie below the counter, and ids and codes are unique. */
  predicate ModelRowsValid(models: seq<BatteryModel>, nextId: int)
  {
    (forall k :: 0 <= k < |models| ==> models[k].id < nextId) &&
    (forall i, j :: 0 <= i < j < |models| ==> models[i].id != models[j].id && models[i].modelCode != models[j].modelCode)
  }

  /** Customer ids lie below the counter, and ids and names are unique. */
  predicate CustomerRowsValid(customers: seq<Customer>, nextId: int)
  {
    (forall k :: 0 <= k < |customers| ==> customers[k].id < nextId) &&
    (forall i, j :: 0 <= i < j < |customers| ==> customers[i].id != customers[j].id && customers[i].name != customers[j].name)
  }

  /** What the schema guarantees of the ledger tables. */
  predicate Valid(t: Tables)
  {
    BatteryRowsValid(t) && UniqueBatteryCodes(t.batteries) &&
    ModelRowsValid(t.models, t.nextModelId) && CustomerRowsValid(t.customers, t.nextCustomerId)
  }

  /** The empty ledger is valid. */
  lemma EmptyValid()
    ensures Valid(Tables(map[], [], [], 1, 1, 1))
  {
  }

  // ================================================================ find or create

  /**
   * The model a request names: the row found under lookupCode, or else a new row stored
   * under storedCode, which the unique constraint on model_code refuses when that code
   * is already taken.
   */
  function ModelFor(t: Tables, lookupCode: string, storedCode: string): Result<(Tables, BatteryModel), LedgerError>
  {
    match FindModel(t.models, lookupCode)
    case Some(m) => Ok((t, m))
    case None =>
      if FindModel(t.models, storedCode).Some? then Err(ConstraintViolation)
      else
        var m := BatteryModel(t.nextModelId, storedCode);
        Ok((t.(models := t.models + [m], nextModelId := t.nextModelId + 1), m))
  }

  /** The customer a request names: the row found by name, or else a new row with that name. */
  function CustomerFor(t: Tables, name: string): (Tables, Customer)
  {
    match FindCustomer(t.customers, name)
    case Some(c) => (t, c)
    case None =>
      var c := Customer(t.nextCustomerId, name);
      (t.(customers := t.customers + [c], nextCustomerId := t.nextCustomerId + 1), c)
  }

  /** t1 holds t's battery rows and extends its model and customer tables. */
  predicate Extends(t: Tables, t1: Tables)
  {
    t1.batteries == t.batteries && t1.nextBatteryId == t.nextBatteryId &&
    t.models <= t1.models && t.customers <= t1.customers
  }

  /**
   * Finding or creating a model reuses the row found under the lookup code unchanged, or
   * appends one new row under the stored code with a fresh id; the model tables stay valid
   * and the row returned is in the table.
   */
  lemma ModelForSpec(t: Tables, lookupCode: string, storedCode: string)
    requires ModelRowsValid(t.models, t.nextModelId)
    ensures ModelFor(t, lookupCode, storedCode).Ok? <==>
              FindModel(t.models, lookupCode).Some? || FindModel(t.models, storedCode).None?
    ensures ModelFor(t, lookupCode, storedCode).Ok? ==>
              var (t1, m) := ModelFor(t, lookupCode, storedCode).value;
              Extends(t, t1) && t1.customers == t.customers && t1.nextCustomerId == t.nextCustomerId &&
              ModelRowsValid(t1.models, t1.nextModelId) && ModelCodeOf(t1.models, m.id) == Some(m.modelCode) &&
              (FindModel(t.models, lookupCode).Some? ==> t1 == t && m.modelCode == lookupCode) &&
              (FindModel(t.models, lookupCode).None? ==>
                 t1.models == t.models + [BatteryModel(t.nextModelId, storedCode)] && m.modelCode == storedCode)
  {
    match FindModel(t.models, lookupCode)
    case Some(m) =>
      ModelCodeUnique(t.models, t.nextModelId, m);
    case None =>
      if FindModel(t.models, storedCode).None? {
        var m := BatteryModel(t.nextModelId, storedCode);
        var ms := t.models + [m];
        assert ms[|t.models|] == m;
        ModelCodeUnique(ms, t.nextModelId + 1, m);
      }
  }

  /** In a valid model table, a row is what the lookup by its id finds. */
  lemma ModelCodeUnique(models: seq<BatteryModel>, nextId: int, m: BatteryModel)
    requires ModelRowsValid(models, nextId)
    requires m in models
    ensures ModelCodeOf(models, m.id) == Some(m.modelCode)
  {
    var k :| 0 <= k < |models| && models[k] == m;
    var found := ModelCodeOf(models, m.id);
    assert found.Some?;
    var j :| 0 <= j < |models| && models[j] == BatteryModel(m.id, found.value);
    assert j == k;
  }

  /**
   * Finding or creating a customer reuses the row found by name unchanged, or appends one
   * new row with a fresh id; the customer table stays valid and the row returned is in it.
   */
  lemma CustomerForSpec(t: Tables, name: string)
    requires CustomerRowsValid(t.customers, t.nextCustomerId)
    ensures var (t1, c) := CustomerFor(t, name);
            Extends(t, t1) && t1.models == t.models && t1.nextModelId == t.nextModelId &&
            CustomerRowsValid(t1.customers, t1.nextCustomerId) && c.name == name &&
            CustomerNameOf(t1.customers, c.id) == Some(name) &&
            (FindCustomer(t.customers, name).Some? ==> t1 == t) &&
            (FindCustomer(t.customers, name).None? ==> t1.customers == t.customers + [Customer(t.nextCustomerId, name)])
  {
    match FindCustomer(t.customers, name)
    case Some(c) =>
      CustomerNameUnique(t.customers, t.nextCustomerId, c);
    case None =>
      var c := Customer(t.nextCustomerId, name);
      var cs := t.customers + [c];
      assert cs[|t.customers|] == c;
      CustomerNameUnique(cs, t.nextCustomerId + 1, c);
  }

  /** In a valid customer table, a row is what the lookup by its id finds. */
  lemma CustomerNameUnique(customers: seq<Customer>, nextId: int, c: Customer)
    requires CustomerRowsValid(customers, nextId)
    requires c in customers
    ensures CustomerNameOf(customers, c.id) == Some(c.name)
  {
    var k :| 0 <= k < |customers| && customers[k] == c;
    var found := CustomerNameOf(customers, c.id);
    assert found.Some?;
    var j :| 0 <= j < |customers| && customers[j] == Customer(c.id, found.value);
    assert j == k;
  }

  /** Growing the model and customer tables keeps every battery's references valid. */
  lemma ExtendsKeepsBatteryRows(t: Tables, t1: Tables)
    requires BatteryRowsValid(t) && Extends(t, t1)
    ensures BatteryRowsValid(t1)
  {
    forall id | id in t1.batteries
      ensures ModelCodeOf(t1.models, t1.batteries[id].modelId).Some?
      ensures t1.batteries[id].customerId.Some? ==> CustomerNameOf(t1.customers, t1.batteries[id].customerId.value).Some?
    {
      var b := t.batteries[id];
      var k :| 0 <= k < |t.models| && t.models[k].id == b.modelId;
      assert t1.models[k] == t.models[k];
      if b.customerId.Some? {
        var j :| 0 <= j < |t.customers| && t.customers[j].id == b.customerId.value;
        assert t1.customers[j] == t.customers[j];
      }
    }
  }

  // ================================================================ timestamps

  /** lastRecordAt: null or empty text gives no timestamp; unparsable text throws. */
  function ParsedTimestamp(ts: Option<TimeText>): Result<Option<int>, LedgerError>
  {
    if ts.None? || ts.value.text == [] then Ok(None)
    else if ts.value.parsed.None? then Err(BadTimestamp)
    else Ok(ts.value.parsed)
  }

  // ================================================================ list item

  /** toListItemDto: the row's own fields, its model's code and its customer's name. */
  function ToListItem(t: Tables, b: Battery): ListItem
  {
    ListItem(
      b.id, b.batteryCode,
      ModelCodeOf(t.models, b.modelId),
      if b.customerId.Some? then CustomerNameOf(t.customers, b.customerId.value) else None,
      b.commissioningDate, b.status, b.ratedCapacityAh, b.sohPercent, b.cycleCount, b.lastRecordAt)
  }

  /**
   * In a valid ledger every row's list item names its model, and names a customer exactly
   * when the row references one; both are the referenced rows' code and name.
   */
  lemma ListItemNamesRows(t: Tables, id: int)
    requires Valid(t) && id in t.batteries
    ensures var b := t.batteries[id];
            var item := ToListItem(t, b);
            item.id == id && item.batteryCode == b.batteryCode &&
            item.modelCode.Some? && BatteryModel(b.modelId, item.modelCode.value) in t.models &&
            (item.customerName.Some? <==> b.customerId.Some?) &&
            (b.customerId.Some? ==> Customer(b.customerId.value, item.customerName.value) in t.customers)
  {
  }

  // ================================================================ create

  /** The status saved for a request: its own, or 1 when it gives none. */
  function StatusOf(req: BatteryRequest): int
  {
    if req.status.Some? then req.status.value else DefaultStatus
  }

  /** The battery row createBattery builds: the request's fields, status defaulted, not deleted. */
  function NewBattery(id: int, code: string, modelId: int, customerId: int, req: BatteryRequest, at: Option<int>): Battery
  {
    Battery(id, code, modelId, Some(customerId), StatusOf(req), req.commissioningDate, req.ratedCapacityAh,
            req.sohPercent, req.cycleCount, at, Some(false))
  }

  /**
   * batteryRepository.save of a new row, under the next id: refused by the unique
   * constraint on battery_code when any row holds its code, and by the NOT NULL
   * constraint on rated_capacity_ah when it has no rated capacity.
   */
  function InsertRow(t: Tables, b: Battery): Result<Tables, LedgerError>
  {
    if CodeTaken(t.batteries, b.batteryCode) || b.ratedCapacityAh.None? then Err(ConstraintViolation)
    else Ok(t.(batteries := t.batteries[t.nextBatteryId := b], nextBatteryId := t.nextBatteryId + 1))
  }

  /**
   * What createBattery saves once its checks pass: the model found under lookupCode or
   * created under storedCode, the customer found or created under name, then the timestamp
   * is parsed and a battery row with the given code is inserted.
   */
  function CreateRows(t: Tables, code: string, lookupCode: string, storedCode: string, name: string,
                      req: BatteryRequest): Result<(Tables, ListItem), LedgerError>
  {
    match ModelFor(t, lookupCode, storedCode)
    case Err(e) => Err(e)
    case Ok((t1, m)) =>
      var (t2, c) := CustomerFor(t1, name);
      match ParsedTimestamp(req.lastRecordAt)
      case Err(e) => Err(e)
      case Ok(at) =>
        var b := NewBattery(t2.nextBatteryId, code, m.id, c.id, req, at);
        match InsertRow(t2, b)
        case Err(e) => Err(e)
        case Ok(t3) => Ok((t3, ToListItem(t3, b)))
  }

  /**
   * createBattery. The code, model code and customer name must be non-blank and the
   * trimmed code must be free; the model is looked up under the trimmed code but created
   * under the code as sent, the customer is looked up and created under the trimmed name,
   * and the battery row is saved with the code as sent.
   */
  function Create(t: Tables, req: BatteryRequest): Result<(Tables, ListItem), LedgerError>
  {
    if req.batteryCode.None? || IsBlank(req.batteryCode.value) then Err(BlankBatteryCode)
    else if CodeTaken(t.batteries, Trim(req.batteryCode.value)) then Err(DuplicateBatteryCode)
    else if req.modelCode.None? || IsBlank(req.modelCode.value) then Err(BlankModelCode)
    else if req.customerName.None? || IsBlank(req.customerName.value) then Err(BlankCustomerName)
    else CreateRows(t, req.batteryCode.value, Trim(req.modelCode.value), req.modelCode.value,
                    Trim(req.customerName.value), req)
  }

  /** The request passes createBattery's four checks. */
  predicate CreateChecksPass(t: Tables, req: BatteryRequest)
  {
    req.batteryCode.Some? && !IsBlank(req.batteryCode.value) &&
    !CodeTaken(t.batteries, Trim(req.batteryCode.value)) &&
    req.modelCode.Some? && !IsBlank(req.modelCode.value) &&
    req.customerName.Some? && !IsBlank(req.customerName.value)
  }

  /**
   * createBattery's checks, in their order: a null or blank code; a trimmed code that any
   * row, deleted or not, already holds; a null or blank model code; a null or blank
   * customer name. A request that passes them saves the battery under the code as sent,
   * the model under the model code as sent looked up trimmed, and the trimmed name.
   */
  lemma CreateChecks(t: Tables, req: BatteryRequest)
    ensures Create(t, req) == Err(BlankBatteryCode) <==> req.batteryCode.None? || IsBlank(req.batteryCode.value)
    ensures Create(t, req) == Err(DuplicateBatteryCode) <==>
              req.batteryCode.Some? && !IsBlank(req.batteryCode.value) && CodeTaken(t.batteries, Trim(req.batteryCode.value))
    ensures Create(t, req) == Err(BlankModelCode) <==>
              req.batteryCode.Some? && !IsBlank(req.batteryCode.value) &&
              !CodeTaken(t.batteries, Trim(req.batteryCode.value)) &&
              (req.modelCode.None? || IsBlank(req.modelCode.value))
    ensures Create(t, req) == Err(BlankCustomerName) <==>
              req.batteryCode.Some? && !IsBlank(req.batteryCode.value) &&
              !CodeTaken(t.batteries, Trim(req.batteryCode.value)) &&
              req.modelCode.Some? && !IsBlank(req.modelCode.value) &&
              (req.customerName.None? || IsBlank(req.customerName.value))
    ensures CreateChecksPass(t, req) ==>
              Create(t, req) == CreateRows(t, req.batteryCode.value, Trim(req.modelCode.value), req.modelCode.value,
                                           Trim(req.customerName.value), req)
  {
  }

  /**
   * A created battery gets the next id and is the only row added; it keeps the code it
   * was given, takes status 1 unless one is given, is not deleted, and the list item
   * returned is that row's, naming the customer it was given.
   */
  lemma CreateRowsStoreRow(t: Tables, code: string, lookupCode: string, storedCode: string, name: string, req: BatteryRequest)
    requires Valid(t)
    requires CreateRows(t, code, lookupCode, storedCode, name, req).Ok?
    ensures var (t3, item) := CreateRows(t, code, lookupCode, storedCode, name, req).value;
            t.nextBatteryId !in t.batteries && t3.nextBatteryId == t.nextBatteryId + 1 &&
            t3.batteries == t.batteries[t.nextBatteryId := t3.batteries[t.nextBatteryId]] &&
            var b := t3.batteries[t.nextBatteryId];
            b.id == t.nextBatteryId && b.batteryCode == code && b.status == StatusOf(req) &&
            b.deleted == Some(false) && b.ratedCapacityAh == req.ratedCapacityAh &&
            item == ToListItem(t3, b) && item.customerName == Some(name)
  {
    ModelForSpec(t, lookupCode, storedCode);
    var (t1, m) := ModelFor(t, lookupCode, storedCode).value;
    CustomerForSpec(t1, name);
  }

  /**
   * The new battery references the model found under lookupCode, which is reused unchanged;
   * when there is none, exactly one model row is added, under storedCode.
   */
  lemma CreateRowsFindOrAddModel(t: Tables, code: string, lookupCode: string, storedCode: string, name: string,
                                 req: BatteryRequest)
    requires Valid(t)
    requires CreateRows(t, code, lookupCode, storedCode, name, req).Ok?
    ensures var t3 := CreateRows(t, code, lookupCode, storedCode, name, req).value.0;
            var b := t3.batteries[t.nextBatteryId];
            var found := FindModel(t.models, lookupCode);
            (found.Some? ==> t3.models == t.models && b.modelId == found.value.id) &&
            (found.None? ==> t3.models == t.models + [BatteryModel(t.nextModelId, storedCode)] && b.modelId == t.nextModelId)
  {
    ModelForSpec(t, lookupCode, storedCode);
    var (t1, m) := ModelFor(t, lookupCode, storedCode).value;
    CustomerForSpec(t1, name);
  }

  /**
   * The new battery references the customer found under name, which is reused unchanged;
   * when there is none, exactly one customer row is added under that name.
   */
  lemma CreateRowsFindOrAddCustomer(t: Tables, code: string, lookupCode: string, storedCode: string, name: string,
                                    req: BatteryRequest)
    requires Valid(t)
    requires CreateRows(t, code, lookupCode, storedCode, name, req).Ok?
    ensures var t3 := CreateRows(t, code, lookupCode, storedCode, name, req).value.0;
            var b := t3.batteries[t.nextBatteryId];
            var found := FindCustomer(t.customers, name);
            (found.Some? ==> t3.customers == t.customers && b.customerId == Some(found.value.id)) &&
            (found.None? ==> t3.customers == t.customers + [Customer(t.nextCustomerId, name)] &&
                             b.customerId == Some(t.nextCustomerId))
  {
    ModelForSpec(t, lookupCode, storedCode);
    var (t1, m) := ModelFor(t, lookupCode, storedCode).value;
    CustomerForSpec(t1, name);
  }

  /** Saving the rows of a create keeps the ledger valid. */
  lemma CreateRowsPreserveValid(t: Tables, code: string, lookupCode: string, storedCode: string, name: string,
                                req: BatteryRequest)
    requires Valid(t)
    requires CreateRows(t, code, lookupCode, storedCode, name, req).Ok?
    ensures Valid(CreateRows(t, code, lookupCode, storedCode, name, req).value.0)
  {
    ModelForSpec(t, lookupCode, storedCode);
    var (t1, m) := ModelFor(t, lookupCode, storedCode).value;
    CustomerForSpec(t1, name);
    var (t2, c) := CustomerFor(t1, name);
    ExtendsKeepsBatteryRows(t, t1);
    ExtendsKeepsBatteryRows(t1, t2);
    var at := ParsedTimestamp(req.lastRecordAt).value;
    var b := NewBattery(t2.nextBatteryId, code, m.id, c.id, req, at);
    InsertKeepsValid(t2, b);
  }

  /** Inserting a row with a free code, a rated capacity and existing references keeps the ledger valid. */
  lemma InsertKeepsValid(t: Tables, b: Battery)
    requires Valid(t) && InsertRow(t, b).Ok?
    requires b.id == t.nextBatteryId && ModelCodeOf(t.models, b.modelId).Some?
    requires b.customerId.Some? ==> CustomerNameOf(t.customers, b.customerId.value).Some?
    ensures Valid(InsertRow(t, b).value)
  {
    var t3 := InsertRow(t, b).value;
    assert UniqueBatteryCodes(t3.batteries) by {
      forall i, j | i in t3.batteries && j in t3.batteries && t3.batteries[i].batteryCode == t3.batteries[j].batteryCode
        ensures i == j
      {
        if i != b.id {
          assert t3.batteries[i] == t.batteries[i];
        }
        if j != b.id {
          assert t3.batteries[j] == t.batteries[j];
        }
      }
    }
  }

  /**
   * A created battery gets the next id and is the only row added; it keeps the code as
   * sent, untrimmed, takes status 1 unless one is given and is not deleted; the list item
   * returned is that row's and names the trimmed customer name.
   */
  lemma CreateStoresRow(t: Tables, req: BatteryRequest)
    requires Valid(t)
    requires Create(t, req).Ok?
    ensures var (t1, item) := Create(t, req).value;
            t.nextBatteryId !in t.batteries && t1.nextBatteryId == t.nextBatteryId + 1 &&
            t1.batteries == t.batteries[t.nextBatteryId := t1.batteries[t.nextBatteryId]] &&
            var b := t1.batteries[t.nextBatteryId];
            b.batteryCode == req.batteryCode.value && b.status == StatusOf(req) && b.deleted == Some(false) &&
            item == ToListItem(t1, b) && item.customerName == Some(Trim(req.customerName.value))
  {
    CreateChecks(t, req);
    CreateRowsStoreRow(t, req.batteryCode.value, Trim(req.modelCode.value), req.modelCode.value,
                       Trim(req.customerName.value), req);
  }

  /**
   * The model is looked up under the trimmed model code and reused unchanged when found;
   * otherwise exactly one model row is added, under the model code as sent.
   */
  lemma CreateFindsOrAddsModel(t: Tables, req: BatteryRequest)
    requires Valid(t)
    requires Create(t, req).Ok?
    ensures var t1 := Create(t, req).value.0;
            var b := t1.batteries[t.nextBatteryId];
            var found := FindModel(t.models, Trim(req.modelCode.value));
            (found.Some? ==> t1.models == t.models && b.modelId == found.value.id) &&
            (found.None? ==> t1.models == t.models + [BatteryModel(t.nextModelId, req.modelCode.value)] &&
                             b.modelId == t.nextModelId)
  {
    CreateChecks(t, req);
    CreateRowsFindOrAddModel(t, req.batteryCode.value, Trim(req.modelCode.value), req.modelCode.value,
                             Trim(req.customerName.value), req);
  }

  /**
   * The customer is looked up under the trimmed name and reused unchanged when found;
   * otherwise exactly one customer row is added under the trimmed name.
   */
  lemma CreateFindsOrAddsCustomer(t: Tables, req: BatteryRequest)
    requires Valid(t)
    requires Create(t, req).Ok?
    ensures var t1 := Create(t, req).value.0;
            var b := t1.batteries[t.nextBatteryId];
            var name := Trim(req.customerName.value);
            var found := FindCustomer(t.customers, name);
            (found.Some? ==> t1.customers == t.customers && b.customerId == Some(found.value.id)) &&
            (found.None? ==> t1.customers == t.customers + [Customer(t.nextCustomerId, name)] &&
                             b.customerId == Some(t.nextCustomerId))
  {
    CreateChecks(t, req);
    CreateRowsFindOrAddCustomer(t, req.batteryCode.value, Trim(req.modelCode.value), req.modelCode.value,
                                Trim(req.customerName.value), req);
  }

  /** Creating a battery keeps the ledger valid. */
  lemma CreatePreservesValid(t: Tables, req: BatteryRequest)
    requires Valid(t)
    requires Create(t, req).Ok?
    ensures Valid(Create(t, req).value.0)
  {
    CreateChecks(t, req);
    CreateRowsPreserveValid(t, req.batteryCode.value, Trim(req.modelCode.value), req.modelCode.value,
                            Trim(req.customerName.value), req);
  }

  /**
   * The model row is created under the code as sent but looked up under the trimmed code.
   * So after a battery is created with a padded model code that had no row, a later create
   * with the same padded model code that passes the four checks fails on the unique
   * constraint of model_code instead of reusing the row.
   */
  lemma PaddedModelCodeIsNotReused(t: Tables, req: BatteryRequest, req2: BatteryRequest)
    requires Valid(t)
    requires Create(t, req).Ok?
    requires FindModel(t.models, Trim(req.modelCode.value)).None?
    requires Trim(req.modelCode.value) != req.modelCode.value
    requires req2.modelCode == req.modelCode
    requires CreateChecksPass(Create(t, req).value.0, req2)
    ensures Create(Create(t, req).value.0, req2) == Err(ConstraintViolation)
  {
    CreateFindsOrAddsModel(t, req);
    var t1 := Create(t, req).value.0;
    var mc := req.modelCode.value;
    assert t1.models[|t.models|] == BatteryModel(t.nextModelId, mc);
    assert FindModel(t1.models, Trim(mc)).None?;
    assert FindModel(t1.models, mc).Some?;
    CreateChecks(t1, req2);
  }

  // ================================================================ update

  /** The row updateBattery saves: the old row with the request's fields, status defaulted. */
  function EditedBattery(b: Battery, code: string, modelId: int, customerId: int, req: BatteryRequest,
                         at: Option<int>): Battery
  {
    b.(batteryCode := code, modelId := modelId, customerId := Some(customerId), status := StatusOf(req),
       commissioningDate := req.commissioningDate, ratedCapacityAh := req.ratedCapacityAh,
       sohPercent := req.sohPercent, cycleCount := req.cycleCount, lastRecordAt := at)
  }

  /**
   * batteryRepository.save of an existing row, under its id: refused by the unique
   * constraint on battery_code when another row holds its code, and by the NOT NULL
   * constraint on rated_capacity_ah when it has no rated capacity.
   */
  function SaveRow(t: Tables, b: Battery): Result<Tables, LedgerError>
  {
    if CodeTakenByOther(t.batteries, b.batteryCode, b.id) || b.ratedCapacityAh.None? then Err(ConstraintViolation)
    else Ok(t.(batteries := t.batteries[b.id := b]))
  }

  /**
   * What updateBattery saves once its checks pass: the model and the customer found or
   * created under the texts given, then the timestamp is parsed and the row is rewritten.
   */
  function UpdateRows(t: Tables, id: int, code: string, modelCode: string, name: string,
                      req: BatteryRequest): Result<(Tables, ListItem), LedgerError>
    requires id in t.batteries
  {
    match ModelFor(t, modelCode, modelCode)
    case Err(e) => Err(e)
    case Ok((t1, m)) =>
      var (t2, c) := CustomerFor(t1, name);
      match ParsedTimestamp(req.lastRecordAt)
      case Err(e) => Err(e)
      case Ok(at) =>
        var b := EditedBattery(t.batteries[id], code, m.id, c.id, req, at);
        match SaveRow(t2, b)
        case Err(e) => Err(e)
        case Ok(t3) => Ok((t3, ToListItem(t3, b)))
  }

  /**
   * updateBattery. The row must exist and not be deleted; the code must be non-blank and
   * its trimmed form held by no other row; the model code and customer name are only
   * tested for being empty, not blank. The model and customer are found or created under
   * their trimmed forms, and the row takes the trimmed code and the request's fields.
   */
  function Update(t: Tables, id: int, req: BatteryRequest): Result<(Tables, ListItem), LedgerError>
  {
    if id !in t.batteries then Err(BatteryNotFound)
    else if IsDeleted(t.batteries[id]) then Err(BatteryDeleted)
    else if req.batteryCode.None? || IsBlank(req.batteryCode.value) then Err(BlankBatteryCode)
    else if CodeTakenByOther(t.batteries, Trim(req.batteryCode.value), id) then Err(DuplicateBatteryCode)
    else if req.modelCode.None? || req.modelCode.value == [] then Err(BlankModelCode)
    else if req.customerName.None? || req.customerName.value == [] then Err(BlankCustomerName)
    else UpdateRows(t, id, Trim(req.batteryCode.value), Trim(req.modelCode.value), Trim(req.customerName.value), req)
  }

  /** The request passes updateBattery's checks on a row that exists and is not deleted. */
  predicate UpdateChecksPass(t: Tables, id: int, req: BatteryRequest)
  {
    id in t.batteries && !IsDeleted(t.batteries[id]) &&
    req.batteryCode.Some? && !IsBlank(req.batteryCode.value) &&
    !CodeTakenByOther(t.batteries, Trim(req.batteryCode.value), id) &&
    req.modelCode.Some? && req.modelCode.value != [] &&
    req.customerName.Some? && req.customerName.value != []
  }

  /**
   * updateBattery's checks, in their order: an unknown id; a deleted row; a null or blank
   * code; a trimmed code held by another row; a null or EMPTY model code (a code of
   * spaces passes); a null or empty customer name. A request that passes them saves the
   * trimmed code, model code and name.
   */
  lemma UpdateChecks(t: Tables, id: int, req: BatteryRequest)
    ensures Update(t, id, req) == Err(BatteryNotFound) <==> id !in t.batteries
    ensures Update(t, id, req) == Err(BatteryDeleted) <==> id in t.batteries && IsDeleted(t.batteries[id])
    ensures Update(t, id, req) == Err(BlankBatteryCode) <==>
              id in t.batteries && !IsDeleted(t.batteries[id]) &&
              (req.batteryCode.None? || IsBlank(req.batteryCode.value))
    ensures Update(t, id, req) == Err(DuplicateBatteryCode) <==>
              id in t.batteries && !IsDeleted(t.batteries[id]) &&
              req.batteryCode.Some? && !IsBlank(req.batteryCode.value) &&
              CodeTakenByOther(t.batteries, Trim(req.batteryCode.value), id)
    ensures Update(t, id, req) == Err(BlankModelCode) <==>
              id in t.batteries && !IsDeleted(t.batteries[id]) &&
              req.batteryCode.Some? && !IsBlank(req.batteryCode.value) &&
              !CodeTakenByOther(t.batteries, Trim(req.batteryCode.value), id) &&
              (req.modelCode.None? || req.modelCode.value == [])
    ensures Update(t, id, req) == Err(BlankCustomerName) <==>
              id in t.batteries && !IsDeleted(t.batteries[id]) &&
              req.batteryCode.Some? && !IsBlank(req.batteryCode.value) &&
              !CodeTakenByOther(t.batteries, Trim(req.batteryCode.value), id) &&
              req.modelCode.Some? && req.modelCode.value != [] &&
              (req.customerName.None? || req.customerName.value == [])
    ensures UpdateChecksPass(t, id, req) ==>
              Update(t, id, req) ==
              UpdateRows(t, id, Trim(req.batteryCode.value), Trim(req.modelCode.value), Trim(req.customerName.value), req)
  {
  }

  /**
   * Saving an edit whose code no other row holds fails only on an unparsable timestamp or
   * a missing rated capacity: the model is created under the very code it was looked up
   * under, so its insert never meets the unique constraint.
   */
  lemma UpdateRowsNeverClash(t: Tables, id: int, code: string, modelCode: string, name: string, req: BatteryRequest)
    requires id in t.batteries && t.batteries[id].id == id
    requires !CodeTakenByOther(t.batteries, code, id)
    ensures UpdateRows(t, id, code, modelCode, name, req).Err? ==>
              UpdateRows(t, id, code, modelCode, name, req) == Err(BadTimestamp) || req.ratedCapacityAh.None?
  {
    assert ModelFor(t, modelCode, modelCode).Ok?;
    var (t1, m) := ModelFor(t, modelCode, modelCode).value;
    var (t2, c) := CustomerFor(t1, name);
    assert t2.batteries == t.batteries;
    if ParsedTimestamp(req.lastRecordAt).Ok? {
      var b := EditedBattery(t.batteries[id], code, m.id, c.id, req, ParsedTimestamp(req.lastRecordAt).value);
      assert b.id == id && b.batteryCode == code;
      assert SaveRow(t2, b).Err? ==> req.ratedCapacityAh.None?;
    }
  }

  /**
   * The checks of an edit are enough for the schema: once they pass, the edit fails only
   * on an unparsable timestamp or a missing rated capacity, never on a unique constraint.
   */
  lemma UpdateNeverClashes(t: Tables, id: int, req: BatteryRequest)
    requires Valid(t) && UpdateChecksPass(t, id, req)
    ensures Update(t, id, req).Err? ==> Update(t, id, req) == Err(BadTimestamp) || req.ratedCapacityAh.None?
  {
    UpdateChecks(t, id, req);
    assert t.batteries[id].id == id;
    UpdateRowsNeverClash(t, id, Trim(req.batteryCode.value), Trim(req.modelCode.value), Trim(req.customerName.value), req);
  }

  /**
   * An edit rewrites only its own row, under its id: the row keeps its deleted flag and
   * takes the code given, status 1 unless one is given, the request's commissioning date,
   * rated capacity, SOH and cycle count, and its parsed last-record time; every other row
   * is unchanged. The model and customer it names are stated by UpdateRowsItem.
   */
  lemma UpdateRowsStoreRow(t: Tables, id: int, code: string, modelCode: string, name: string, req: BatteryRequest)
    requires Valid(t) && id in t.batteries
    requires UpdateRows(t, id, code, modelCode, name, req).Ok?
    ensures var t3 := UpdateRows(t, id, code, modelCode, name, req).value.0;
            var b := t3.batteries[id];
            t3.batteries == t.batteries[id := b] && t3.nextBatteryId == t.nextBatteryId &&
            b.id == id && b.deleted == t.batteries[id].deleted && b.batteryCode == code &&
            b.status == StatusOf(req) && b.commissioningDate == req.commissioningDate &&
            b.ratedCapacityAh == req.ratedCapacityAh && b.sohPercent == req.sohPercent &&
            b.cycleCount == req.cycleCount && ParsedTimestamp(req.lastRecordAt) == Ok(b.lastRecordAt)
  {
    ModelForSpec(t, modelCode, modelCode);
    var (t1, m) := ModelFor(t, modelCode, modelCode).value;
    CustomerForSpec(t1, name);
    var (t2, c) := CustomerFor(t1, name);
    var at := ParsedTimestamp(req.lastRecordAt).value;
    var b := EditedBattery(t.batteries[id], code, m.id, c.id, req, at);
    assert t2.batteries == t.batteries;
    assert UpdateRows(t, id, code, modelCode, name, req).value.0 == SaveRow(t2, b).value;
  }

  /** The list item an edit returns is the new row's, naming the model code and name given. */
  lemma UpdateRowsItem(t: Tables, id: int, code: string, modelCode: string, name: string, req: BatteryRequest)
    requires Valid(t) && id in t.batteries
    requires UpdateRows(t, id, code, modelCode, name, req).Ok?
    ensures var (t3, item) := UpdateRows(t, id, code, modelCode, name, req).value;
            item == ToListItem(t3, t3.batteries[id]) && item.modelCode == Some(modelCode) &&
            item.customerName == Some(name)
  {
    ModelForSpec(t, modelCode, modelCode);
    var (t1, m) := ModelFor(t, modelCode, modelCode).value;
    CustomerForSpec(t1, name);
    var (t2, c) := CustomerFor(t1, name);
    var at := ParsedTimestamp(req.lastRecordAt).value;
    var b := EditedBattery(t.batteries[id], code, m.id, c.id, req, at);
    var t3 := SaveRow(t2, b).value;
    assert UpdateRows(t, id, code, modelCode, name, req).value == (t3, ToListItem(t3, b));
    assert t3.models == t2.models && t3.customers == t2.customers;
  }

  /**
   * An edit reuses the model and the customer found under the texts given, unchanged, and
   * otherwise adds exactly one row each, under those texts.
   */
  lemma UpdateRowsFindOrAdd(t: Tables, id: int, code: string, modelCode: string, name: string, req: BatteryRequest)
    requires Valid(t) && id in t.batteries
    requires UpdateRows(t, id, code, modelCode, name, req).Ok?
    ensures var t3 := UpdateRows(t, id, code, modelCode, name, req).value.0;
            (FindModel(t.models, modelCode).Some? ==> t3.models == t.models) &&
            (FindModel(t.models, modelCode).None? ==> t3.models == t.models + [BatteryModel(t.nextModelId, modelCode)]) &&
            (FindCustomer(t.customers, name).Some? ==> t3.customers == t.customers) &&
            (FindCustomer(t.customers, name).None? ==> t3.customers == t.customers + [Customer(t.nextCustomerId, name)])
  {
    ModelForSpec(t, modelCode, modelCode);
    var (t1, m) := ModelFor(t, modelCode, modelCode).value;
    CustomerForSpec(t1, name);
  }

  /** Saving the rows of an edit keeps the ledger valid. */
  lemma UpdateRowsPreserveValid(t: Tables, id: int, code: string, modelCode: string, name: string, req: BatteryRequest)
    requires Valid(t) && id in t.batteries
    requires UpdateRows(t, id, code, modelCode, name, req).Ok?
    ensures Valid(UpdateRows(t, id, code, modelCode, name, req).value.0)
  {
    ModelForSpec(t, modelCode, modelCode);
    var (t1, m) := ModelFor(t, modelCode, modelCode).value;
    CustomerForSpec(t1, name);
    var (t2, c) := CustomerFor(t1, name);
    ExtendsKeepsBatteryRows(t, t1);
    ExtendsKeepsBatteryRows(t1, t2);
    var at := ParsedTimestamp(req.lastRecordAt).value;
    var b := EditedBattery(t.batteries[id], code, m.id, c.id, req, at);
    SaveKeepsValid(t2, b);
  }

  /** Saving an existing row with a code no other row holds and existing references keeps the ledger valid. */
  lemma SaveKeepsValid(t: Tables, b: Battery)
    requires Valid(t) && SaveRow(t, b).Ok? && b.id in t.batteries
    requires ModelCodeOf(t.models, b.modelId).Some?
    requires b.customerId.Some? ==> CustomerNameOf(t.customers, b.customerId.value).Some?
    ensures Valid(SaveRow(t, b).value)
  {
    var t3 := SaveRow(t, b).value;
    assert UniqueBatteryCodes(t3.batteries) by {
      forall i, j | i in t3.batteries && j in t3.batteries && t3.batteries[i].batteryCode == t3.batteries[j].batteryCode
        ensures i == j
      {
        if i != b.id {
          assert t3.batteries[i] == t.batteries[i];
        }
        if j != b.id {
          assert t3.batteries[j] == t.batteries[j];
        }
      }
    }
  }

  /**
   * An edit rewrites only its own row: it keeps its id and deleted flag and takes the
   * trimmed code, status 1 unless one is given, the request's commissioning date, rated
   * capacity, SOH and cycle count, and its parsed last-record time; the model and customer
   * it references carry the trimmed model code and name.
   */
  lemma UpdateStoresRow(t: Tables, id: int, req: BatteryRequest)
    requires Valid(t)
    requires Update(t, id, req).Ok?
    ensures var (t1, item) := Update(t, id, req).value;
            var b := t1.batteries[id];
            t1.batteries == t.batteries[id := b] && b.deleted == t.batteries[id].deleted && !IsDeleted(b) &&
            b.batteryCode == Trim(req.batteryCode.value) && b.status == StatusOf(req) &&
            b.commissioningDate == req.commissioningDate && b.ratedCapacityAh == req.ratedCapacityAh &&
            b.sohPercent == req.sohPercent && b.cycleCount == req.cycleCount &&
            ParsedTimestamp(req.lastRecordAt) == Ok(b.lastRecordAt) &&
            item == ToListItem(t1, b) && item.modelCode == Some(Trim(req.modelCode.value)) &&
            item.customerName == Some(Trim(req.customerName.value))
  {
    UpdateChecks(t, id, req);
    UpdateRowsStoreRow(t, id, Trim(req.batteryCode.value), Trim(req.modelCode.value), Trim(req.customerName.value), req);
    UpdateRowsItem(t, id, Trim(req.batteryCode.value), Trim(req.modelCode.value), Trim(req.customerName.value), req);
  }

  /** Editing a battery keeps the ledger valid. */
  lemma UpdatePreservesValid(t: Tables, id: int, req: BatteryRequest)
    requires Valid(t)
    requires Update(t, id, req).Ok?
    ensures Valid(Update(t, id, req).value.0)
  {
    UpdateChecks(t, id, req);
    UpdateRowsPreserveValid(t, id, Trim(req.batteryCode.value), Trim(req.modelCode.value),
                            Trim(req.customerName.value), req);
  }

  // ================================================================ delete

  /** deleteBattery: an unknown id throws, a deleted row is left alone, any other is flagged deleted. */
  function Delete(t: Tables, id: int): Result<Tables, LedgerError>
  {
    if id !in t.batteries then Err(BatteryNotFound)
    else if IsDeleted(t.batteries[id]) then Ok(t)
    else Ok(t.(batteries := t.batteries[id := t.batteries[id].(deleted := Some(true))]))
  }

  /**
   * Deleting fails exactly for an unknown id; otherwise the row is deleted afterwards, no
   * other field of it and no other row changes, and the model and customer tables stay.
   */
  lemma DeleteSpec(t: Tables, id: int)
    ensures Delete(t, id).Err? <==> id !in t.batteries
    ensures Delete(t, id).Ok? ==>
              var t1 := Delete(t, id).value;
              t1.batteries.Keys == t.batteries.Keys && IsDeleted(t1.batteries[id]) &&
              t1.batteries[id].(deleted := t.batteries[id].deleted) == t.batteries[id] &&
              (forall j :: j in t.batteries && j != id ==> t1.batteries[j] == t.batteries[j]) &&
              t1.models == t.models && t1.customers == t.customers &&
              t1.nextBatteryId == t.nextBatteryId
  {
  }

  /** Deleting twice is deleting once. */
  lemma DeleteIdempotent(t: Tables, id: int)
    requires Delete(t, id).Ok?
    ensures Delete(Delete(t, id).value, id) == Delete(t, id)
  {
  }

  /** Deleting a battery keeps the ledger valid. */
  lemma DeletePreservesValid(t: Tables, id: int)
    requires Valid(t)
    requires Delete(t, id).Ok?
    ensures Valid(Delete(t, id).value)
  {
    var t1 := Delete(t, id).value;
    assert UniqueBatteryCodes(t1.batteries) by {
      forall i, j | i in t1.batteries && j in t1.batteries && t1.batteries[i].batteryCode == t1.batteries[j].batteryCode
        ensures i == j
      {
        assert t.batteries[i].batteryCode == t1.batteries[i].batteryCode;
        assert t.batteries[j].batteryCode == t1.batteries[j].batteryCode;
      }
    }
  }

  // ================================================================ list filter

  /** `LIKE '%' || sub || '%'` for a pattern without wildcards: sub occurs in s. */
  predicate Contains(s: string, sub: string)
    decreases |s|
  {
    sub <= s || (s != [] && Contains(s[1..], sub))
  }

  /** sub occurs in s starting at position i. */
  predicate OccursAt(s: string, sub: string, i: int)
  {
    0 <= i && i + |sub| <= |s| && s[i..i + |sub|] == sub
  }

  /** Contains holds exactly when sub occurs at some position of s. */
  lemma {:induction false} ContainsIff(s: string, sub: string)
    ensures Contains(s, sub) <==> exists i :: OccursAt(s, sub, i)
    decreases |s|
  {
    if sub <= s {
      assert OccursAt(s, sub, 0);
    } else if s != [] {
      ContainsIff(s[1..], sub);
      if Contains(s[1..], sub) {
        var i :| OccursAt(s[1..], sub, i);
        assert s[1..][i..i + |sub|] == s[i + 1..i + 1 + |sub|];
        assert OccursAt(s, sub, i + 1);
      }
      if exists i :: OccursAt(s, sub, i) {
        var i :| OccursAt(s, sub, i);
        assert s[0..|sub|] == s[..|sub|];
        assert s[1..][i - 1..i - 1 + |sub|] == s[i..i + |sub|];
        assert OccursAt(s[1..], sub, i - 1);
      }
    }
  }

  /** BatteryListQuery's filter fields. */
  datatype ListQuery = ListQuery(
    batteryCode: Option<string>,
    modelCode: Option<string>,
    status: Option<int>,
    commissioningDateStart: Option<int>,
    commissioningDateEnd: Option<int>)

  /** The filter that lists every live row. */
  const Unfiltered: ListQuery := ListQuery(None, None, None, None, None)

  /** A text criterion is applied only when it is non-null and non-empty. */
  predicate Supplied(s: Option<string>) { s.Some? && s.value != [] }

  /**
   * The queryBatteryList predicate: each supplied criterion (code and model code by
   * substring, status by equality, commissioning date within the bounds) and always
   * `deleted = false`, which a null flag does not meet.
   */
  predicate ListMatches(t: Tables, b: Battery, q: ListQuery)
  {
    (Supplied(q.batteryCode) ==> Contains(b.batteryCode, q.batteryCode.value)) &&
    (Supplied(q.modelCode) ==>
       ModelCodeOf(t.models, b.modelId).Some? && Contains(ModelCodeOf(t.models, b.modelId).value, q.modelCode.value)) &&
    (q.status.Some? ==> b.status == q.status.value) &&
    (q.commissioningDateStart.Some? ==>
       b.commissioningDate.Some? && b.commissioningDate.value >= q.commissioningDateStart.value) &&
    (q.commissioningDateEnd.Some? ==>
       b.commissioningDate.Some? && b.commissioningDate.value <= q.commissioningDateEnd.value) &&
    b.deleted == Some(false)
  }

  /** The ids of the rows the list query selects, before paging. */
  function Listed(t: Tables, q: ListQuery): set<int>
  {
    set id | id in t.batteries && ListMatches(t, t.batteries[id], q)
  }

  /** The ids of the rows flagged `deleted = false`. */
  function LiveIds(t: Tables): set<int>
  {
    set id | id in t.batteries && t.batteries[id].deleted == Some(false)
  }

  /** Without criteria the list selects exactly the live rows; with criteria, some of them. */
  lemma ListIsLiveRows(t: Tables, q: ListQuery)
    ensures Listed(t, Unfiltered) == LiveIds(t)
    ensures Listed(t, q) <= LiveIds(t)
    ensures forall id :: id in Listed(t, q) ==> !IsDeleted(t.batteries[id])
  {
    forall id
      ensures id in Listed(t, Unfiltered) <==> id in LiveIds(t)
      ensures id in Listed(t, q) ==> id in LiveIds(t)
    {
    }
  }

  /** An empty text criterion is the same as none. */
  lemma EmptyTextIsNoCriterion(t: Tables, q: ListQuery)
    ensures Listed(t, q.(batteryCode := Some([]))) == Listed(t, q.(batteryCode := None))
    ensures Listed(t, q.(modelCode := Some([]))) == Listed(t, q.(modelCode := None))
  {
    forall id
      ensures id in Listed(t, q.(batteryCode := Some([]))) <==> id in Listed(t, q.(batteryCode := None))
    {
    }
    forall id
      ensures id in Listed(t, q.(modelCode := Some([]))) <==> id in Listed(t, q.(modelCode := None))
    {
    }
  }

  /** Every listed row's code contains the code criterion, at some position. */
  lemma ListedCodesContain(t: Tables, q: ListQuery, id: int)
    requires id in Listed(t, q) && Supplied(q.batteryCode)
    ensures exists i :: OccursAt(t.batteries[id].batteryCode, q.batteryCode.value, i)
  {
    ContainsIff(t.batteries[id].batteryCode, q.batteryCode.value);
  }

  /** A deleted battery leaves every list and nothing else does. */
  lemma DeleteLeavesList(t: Tables, id: int, q: ListQuery)
    requires Delete(t, id).Ok?
    ensures Listed(Delete(t, id).value, q) == Listed(t, q) - {id}
  {
    var t1 := Delete(t, id).value;
    forall j
      ensures j in Listed(t1, q) <==> j in Listed(t, q) - {id}
    {
      if j != id && j in t.batteries {
        assert t1.batteries[j] == t.batteries[j];
      }
    }
  }

  /** A created battery is on the unfiltered list. */
  lemma CreateJoinsList(t: Tables, req: BatteryRequest)
    requires Valid(t)
    requires Create(t, req).Ok?
    ensures t.nextBatteryId in Listed(Create(t, req).value.0, Unfiltered)
  {
    CreateStoresRow(t, req);
  }

  // ================================================================ the service

  /**
   * The service over its three repositories. Each operation runs as one transaction:
   * the tables are saved row by row and restored from a snapshot when an exception ends it.
   */
  class Ledger {
    var batteries: map<int, Battery>
    var models: seq<BatteryModel>
    var customers: seq<Customer>
    var nextBatteryId: int
    var nextModelId: int
    var nextCustomerId: int

    /** The tables as they stand. */
    function State(): Tables
      reads this
    {
      Tables(batteries, models, customers, nextBatteryId, nextModelId, nextCustomerId)
    }

    /** An empty ledger whose identity columns start at 1. */
    constructor ()
      ensures State() == Tables(map[], [], [], 1, 1, 1)
    {
      batteries := map[];
      models := [];
      customers := [];
      nextBatteryId := 1;
      nextModelId := 1;
      nextCustomerId := 1;
    }

    /** A rolled-back transaction: the tables return to the snapshot. */
    method Rollback(snapshot: Tables)
      modifies this
      ensures State() == snapshot
    {
      batteries := snapshot.batteries;
      models := snapshot.models;
      customers := snapshot.customers;
      nextBatteryId := snapshot.nextBatteryId;
      nextModelId := snapshot.nextModelId;
      nextCustomerId := snapshot.nextCustomerId;
    }

    /** batteryModelRepository.save of a new row: refused by the unique constraint on model_code. */
    method InsertModel(code: string) returns (r: Result<BatteryModel, LedgerError>)
      modifies this
      ensures FindModel(old(models), code).Some? ==> r == Err(ConstraintViolation) && State() == old(State())
      ensures FindModel(old(models), code).None? ==>
                r == Ok(BatteryModel(old(nextModelId), code)) &&
                State() == old(State()).(models := old(models) + [r.value], nextModelId := old(nextModelId) + 1)
    {
      if FindModel(models, code).Some? {
        return Err(ConstraintViolation);
      }
      var m := BatteryModel(nextModelId, code);
      models := models + [m];
      nextModelId := nextModelId + 1;
      return Ok(m);
    }

    /** customerRepository.save of a new row. */
    method InsertCustomer(name: string) returns (c: Customer)
      modifies this
      ensures c == Customer(old(nextCustomerId), name)
      ensures State() == old(State()).(customers := old(customers) + [c], nextCustomerId := old(nextCustomerId) + 1)
    {
      c := Customer(nextCustomerId, name);
      customers := customers + [c];
      nextCustomerId := nextCustomerId + 1;
    }

    /** batteryRepository.save of a new row: see InsertRow. */
    method InsertBattery(b: Battery) returns (r: Result<(), LedgerError>)
      modifies this
      ensures InsertRow(old(State()), b).Err? ==> r == Err(ConstraintViolation) && State() == old(State())
      ensures InsertRow(old(State()), b).Ok? ==> r == Ok(()) && State() == InsertRow(old(State()), b).value
    {
      if CodeTaken(batteries, b.batteryCode) || b.ratedCapacityAh.None? {
        return Err(ConstraintViolation);
      }
      batteries := batteries[nextBatteryId := b];
      nextBatteryId := nextBatteryId + 1;
      return Ok(());
    }

    /** batteryRepository.save of an existing row: see SaveRow. */
    method SaveBattery(b: Battery) returns (r: Result<(), LedgerError>)
      modifies this
      ensures SaveRow(old(State()), b).Err? ==> r == Err(ConstraintViolation) && State() == old(State())
      ensures SaveRow(old(State()), b).Ok? ==> r == Ok(()) && State() == SaveRow(old(State()), b).value
    {
      if CodeTakenByOther(batteries, b.batteryCode, b.id) || b.ratedCapacityAh.None? {
        return Err(ConstraintViolation);
      }
      batteries := batteries[b.id := b];
      return Ok(());
    }

    /** The model for a request: found under lookupCode, or inserted under storedCode. */
    method FindOrInsertModel(lookupCode: string, storedCode: string) returns (r: Result<BatteryModel, LedgerError>)
      modifies this
      ensures ModelFor(old(State()), lookupCode, storedCode).Err? ==>
                r == Err(ModelFor(old(State()), lookupCode, storedCode).error) && State() == old(State())
      ensures ModelFor(old(State()), lookupCode, storedCode).Ok? ==>
                r == Ok(ModelFor(old(State()), lookupCode, storedCode).value.1) &&
                State() == ModelFor(old(State()), lookupCode, storedCode).value.0
    {
      var found := FindModel(models, lookupCode);
      if found.Some? {
        return Ok(found.value);
      }
      r := InsertModel(storedCode);
    }

    /** The customer for a request: found by name, or inserted. */
    method FindOrInsertCustomer(name: string) returns (c: Customer)
      modifies this
      ensures (State(), c) == CustomerFor(old(State()), name)
    {
      var found := FindCustomer(customers, name);
      if found.Some? {
        return found.value;
      }
      c := InsertCustomer(name);
    }

    /** createBattery: see Create; a failure leaves the tables as they were. */
    method CreateBattery(req: BatteryRequest) returns (r: Result<ListItem, LedgerError>)
      modifies this
      ensures Create(old(State()), req).Err? ==> r == Err(Create(old(State()), req).error) && State() == old(State())
      ensures Create(old(State()), req).Ok? ==>
                r == Ok(Create(old(State()), req).value.1) && State() == Create(old(State()), req).value.0
    {
      var snapshot := State();
      if req.batteryCode.None? || IsBlank(req.batteryCode.value) {
        return Err(BlankBatteryCode);
      }
      if CodeTaken(batteries, Trim(req.batteryCode.value)) {
        return Err(DuplicateBatteryCode);
      }
      if req.modelCode.None? || IsBlank(req.modelCode.value) {
        return Err(BlankModelCode);
      }
      var modelCode := Trim(req.modelCode.value);
      if req.customerName.None? || IsBlank(req.customerName.value) {
        return Err(BlankCustomerName);
      }
      var customerName := Trim(req.customerName.value);

      var model := FindOrInsertModel(modelCode, req.modelCode.value);
      if model.Err? {
        return Err(model.error);
      }
      var customer := FindOrInsertCustomer(customerName);
      var at := ParsedTimestamp(req.lastRecordAt);
      if at.Err? {
        Rollback(snapshot);
        return Err(at.error);
      }
      var b := NewBattery(nextBatteryId, req.batteryCode.value, model.value.id, customer.id, req, at.value);
      var saved := InsertBattery(b);
      if saved.Err? {
        Rollback(snapshot);
        return Err(saved.error);
      }
      r := Ok(ToListItem(State(), b));
    }

    /** updateBattery: see Update; a failure leaves the tables as they were. */
    method UpdateBattery(id: int, req: BatteryRequest) returns (r: Result<ListItem, LedgerError>)
      modifies this
      ensures Update(old(State()), id, req).Err? ==> r == Err(Update(old(State()), id, req).error) && State() == old(State())
      ensures Update(old(State()), id, req).Ok? ==>
                r == Ok(Update(old(State()), id, req).value.1) && State() == Update(old(State()), id, req).value.0
    {
      var snapshot := State();
      if id !in batteries {
        return Err(BatteryNotFound);
      }
      var battery := batteries[id];
      if IsDeleted(battery) {
        return Err(BatteryDeleted);
      }
      if req.batteryCode.None? || IsBlank(req.batteryCode.value) {
        return Err(BlankBatteryCode);
      }
      var code := Trim(req.batteryCode.value);
      if CodeTakenByOther(batteries, code, id) {
        return Err(DuplicateBatteryCode);
      }
      if req.modelCode.None? || req.modelCode.value == [] {
        return Err(BlankModelCode);
      }
      var modelCode := Trim(req.modelCode.value);
      if req.customerName.None? || req.customerName.value == [] {
        return Err(BlankCustomerName);
      }
      var customerName := Trim(req.customerName.value);

      var model := FindOrInsertModel(modelCode, modelCode);
      if model.Err? {
        return Err(model.error);
      }
      var customer := FindOrInsertCustomer(customerName);
      var at := ParsedTimestamp(req.lastRecordAt);
      if at.Err? {
        Rollback(snapshot);
        return Err(at.error);
      }
      battery := EditedBattery(battery, code, model.value.id, customer.id, req, at.value);
      var saved := SaveBattery(battery);
      if saved.Err? {
        Rollback(snapshot);
        return Err(saved.error);
      }
      r := Ok(ToListItem(State(), battery));
    }

    /** deleteBattery: see Delete. */
    method DeleteBattery(id: int) returns (r: Result<(), LedgerError>)
      modifies this
      ensures Delete(old(State()), id).Err? ==> r == Err(BatteryNotFound) && State() == old(State())
      ensures Delete(old(State()), id).Ok? ==> r == Ok(()) && State() == Delete(old(State()), id).value
    {
      if id !in batteries {
        return Err(BatteryNotFound);
      }
      var battery := batteries[id];
      if IsDeleted(battery) {
        return Ok(());
      }
      batteries := batteries[id := battery.(deleted := Some(true))];
      return Ok(());
    }
  }
}
