/** The JSON-file customer repository. The file is a list of flat records;
    `save` is an upsert by id that rewrites the whole list, `get_all` turns
    every record back into a customer by its `type` tag and fails as a whole
    on the first record it cannot turn back, and `find_by_id` is a linear
    search over that listing. */
module Repository {
  import opened Records
  import opened Errors
  import opened Models

  // ---------------------------------------------------------------------
  // The file
  // ---------------------------------------------------------------------

  /** What is found at the repository's file path. */
  datatype FileState =
    | Absent                       // no file: FileNotFoundError on open
    | Corrupt                      // text that is not JSON: JSONDecodeError
    | Unreadable                   // any other failure to open or read the file
    | Stored(records: seq<Record>) // a JSON list of flat records

  /** `_read_file`: a missing or malformed file reads as the empty list;
      every other failure propagates. */
  function ReadRecords(f: FileState): (r: Result<seq<Record>>)
    ensures r.Err? <==> f.Unreadable?
    ensures r.Err? ==> r.error == UnreadableFile
    ensures f.Absent? || f.Corrupt? ==> r == Ok([])
    ensures f.Stored? ==> r == Ok(f.records)
  {
    match f
    case Absent => Ok([])
    case Corrupt => Ok([])
    case Unreadable => Err(UnreadableFile)
    case Stored(rs) => Ok(rs)
  }

  // ---------------------------------------------------------------------
  // Turning a record back into a customer (the factory in get_all)
  // ---------------------------------------------------------------------

  /** The three classes `get_all` knows how to rebuild. */
  datatype Kind = RegularKind | PremiumKind | CorporateKind

  function KindOf(v: Variant): Kind {
    match v
    case Regular => RegularKind
    case Premium(_) => PremiumKind
    case Corporate(_, _, _) => CorporateKind
  }

  /** `item.get('type')`: the stored tag, or None when there is none. */
  function TypeTag(item: Record): (r: Json)
    ensures "type" in item ==> r == item["type"]
    ensures "type" !in item ==> r == JNull
  {
    if "type" in item then item["type"] else JNull
  }

  /** The dispatch of `get_all` on the tag. */
  function KindOfTag(tag: Json): (r: Option<Kind>)
    ensures r.Some? <==> tag.JStr? && tag.str in {"RegularCustomer", "PremiumCustomer", "CorporateCustomer"}
  {
    if tag == JStr("RegularCustomer") then Some(RegularKind)
    else if tag == JStr("PremiumCustomer") then Some(PremiumKind)
    else if tag == JStr("CorporateCustomer") then Some(CorporateKind)
    else None
  }

  /** The keys `get_all` reads with `item[...]` for each class. */
  function RequiredKeys(k: Kind): set<string> {
    var base := {"id", "name", "email", "phone"};
    if k == CorporateKind then base + {"company_name", "tax_id", "position"} else base
  }

  /** `item[key]` for a field held as a string. */
  function GetString(item: Record, key: string): (r: Result<string>)
    ensures r.Ok? ==> key in item && item[key] == JStr(r.value)
    ensures key in item && item[key].JStr? ==> r.Ok?
    ensures key !in item ==> r == Err(MissingKey(key))
  {
    if key !in item then Err(MissingKey(key))
    else match item[key]
      case JStr(s) => Ok(s)
      case _ => Err(WrongType(key))
  }

  /** `item.get('loyalty_points', 0)` */
  function GetLoyaltyPoints(item: Record): (r: Result<int>)
    ensures "loyalty_points" !in item ==> r == Ok(0)
    ensures r.Ok? && "loyalty_points" in item ==> item["loyalty_points"] == JInt(r.value)
    ensures "loyalty_points" in item && item["loyalty_points"].JInt? ==> r.Ok?
  {
    if "loyalty_points" !in item then Ok(0)
    else match item["loyalty_points"]
      case JInt(n) => Ok(n)
      case _ => Err(WrongType("loyalty_points"))
  }

  /** The subclass fields of a record of class `k`, read in argument order. */
  function DecodeVariant(k: Kind, item: Record): (r: Result<Variant>)
    ensures r.Ok? ==> KindOf(r.value) == k
    ensures k == RegularKind ==> r == Ok(Regular)
    ensures k == PremiumKind && "loyalty_points" !in item ==> r == Ok(Premium(0))
    ensures k == CorporateKind && "company_name" !in item ==> r == Err(MissingKey("company_name"))
    ensures k == CorporateKind && r.Ok? ==> {"company_name", "tax_id", "position"} <= item.Keys
  {
    match k
    case RegularKind => Ok(Regular)
    case PremiumKind =>
      var points :- GetLoyaltyPoints(item);
      Ok(Premium(points))
    case CorporateKind =>
      var company :- GetString(item, "company_name");
      var taxId :- GetString(item, "tax_id");
      var position :- GetString(item, "position");
      Ok(Corporate(company, taxId, position))
  }

  /** `item` is a faithful record of `c`: its tag names the class of `c`,
      every field `get_all` reads holds the field of `c`, and a premium
      record without points stands for zero points. */
  ghost predicate Describes(item: Record, c: CustomerValue) {
    && TypeTag(item) == JStr(ClassName(c.variant))
    && "id" in item && item["id"] == JStr(c.id)
    && "name" in item && item["name"] == JStr(c.name)
    && "email" in item && item["email"] == JStr(c.email)
    && "phone" in item && item["phone"] == JStr(c.phone)
    && match c.variant
       case Regular => true
       case Premium(p) =>
         if "loyalty_points" in item then item["loyalty_points"] == JInt(p) else p == 0
       case Corporate(company, taxId, position) =>
         && "company_name" in item && item["company_name"] == JStr(company)
         && "tax_id" in item && item["tax_id"] == JStr(taxId)
         && "position" in item && item["position"] == JStr(position)
  }

  /** One step of the factory in `get_all`: an unknown tag raises ValueError
      before any field is read; a known tag builds the customer from the
      base fields, then the subclass fields; the first missing key raises
      KeyError. */
  function Decode(item: Record): (r: Result<CustomerValue>)
    ensures KindOfTag(TypeTag(item)).None? ==> r == Err(UnknownCustomerType(TypeTag(item)))
    ensures KindOfTag(TypeTag(item)).Some? && !(RequiredKeys(KindOfTag(TypeTag(item)).value) <= item.Keys) ==> r.Err?
    ensures r.Ok? ==> Describes(item, r.value)
  {
    match KindOfTag(TypeTag(item))
    case None => Err(UnknownCustomerType(TypeTag(item)))
    case Some(k) =>
      var id :- GetString(item, "id");
      var name :- GetString(item, "name");
      var email :- GetString(item, "email");
      var phone :- GetString(item, "phone");
      var v :- DecodeVariant(k, item);
      Ok(CustomerValue(id, name, email, phone, v))
  }

  /** The results of a sequence of steps collected in order: the error of
      the first step that failed, or every value when none did. */
  function Collect<T>(xs: seq<Result<T>>): (r: Result<seq<T>>)
    ensures r.Ok? <==> forall i :: 0 <= i < |xs| ==> xs[i].Ok?
    ensures r.Ok? ==> |r.value| == |xs| && forall i :: 0 <= i < |xs| ==> xs[i] == Ok(r.value[i])
  {
    if xs == [] then Ok([])
    else
      var front := xs[..|xs| - 1];
      assert forall i :: 0 <= i < |front| ==> front[i] == xs[i];
      var init :- Collect(front);
      var last :- xs[|xs| - 1];
      Ok(init + [last])
  }

  /** A failing collection fails with the error of its first failing step. */
  lemma {:induction false} CollectFirstError<T>(xs: seq<Result<T>>)
    requires Collect(xs).Err?
    ensures exists i :: 0 <= i < |xs| && xs[i] == Err(Collect(xs).error)
                        && forall j :: 0 <= j < i ==> xs[j].Ok?
  {
    var front := xs[..|xs| - 1];
    if Collect(front).Err? {
      CollectFirstError(front);
      var i :| 0 <= i < |front| && front[i] == Err(Collect(front).error)
               && forall j :: 0 <= j < i ==> front[j].Ok?;
      assert front[i] == xs[i];
      assert forall j :: 0 <= j < i ==> front[j] == xs[j];
    } else {
      assert forall j :: 0 <= j < |front| ==> front[j] == xs[j];
      assert xs[|xs| - 1] == Err(Collect(xs).error);
    }
  }

  /** When every step before index `i` succeeds and step `i` fails, the
      collection fails with the error of step `i`. */
  lemma {:induction false} CollectFailsAt<T>(xs: seq<Result<T>>, i: nat)
    requires i < |xs| && xs[i].Err?
    requires Collect(xs[..i]).Ok?
    ensures Collect(xs) == Err(xs[i].error)
    decreases |xs|
  {
    var front := xs[..|xs| - 1];
    if i == |xs| - 1 {
      assert front == xs[..i];
    } else {
      assert front[i] == xs[i] && front[..i] == xs[..i];
      CollectFailsAt(front, i);
    }
  }

  /** The outcome of every record, in stored order. */
  function Decoded(rs: seq<Record>): (r: seq<Result<CustomerValue>>)
    ensures |r| == |rs| && forall i :: 0 <= i < |rs| ==> r[i] == Decode(rs[i])
  {
    seq(|rs|, i requires 0 <= i < |rs| => Decode(rs[i]))
  }

  /** `get_all` without the file: every record turned back, in stored
      order; the first record that cannot be turned back makes the whole
      listing fail with its error, and no partial list is returned. */
  function DecodeAll(rs: seq<Record>): (r: Result<seq<CustomerValue>>)
    ensures r.Ok? <==> forall i :: 0 <= i < |rs| ==> Decode(rs[i]).Ok?
    ensures r.Ok? ==> |r.value| == |rs| && forall i :: 0 <= i < |rs| ==> Decode(rs[i]) == Ok(r.value[i])
  {
    Collect(Decoded(rs))
  }

  /** A failing listing fails with the error of the first record that
      cannot be turned back. */
  lemma DecodeAllFirstError(rs: seq<Record>)
    requires DecodeAll(rs).Err?
    ensures exists i :: 0 <= i < |rs| && Decode(rs[i]) == Err(DecodeAll(rs).error)
                        && forall j :: 0 <= j < i ==> Decode(rs[j]).Ok?
  {
    CollectFirstError(Decoded(rs));
    var i :| 0 <= i < |rs| && Decoded(rs)[i] == Err(DecodeAll(rs).error)
             && forall j :: 0 <= j < i ==> Decoded(rs)[j].Ok?;
    assert Decode(rs[i]) == Err(DecodeAll(rs).error);
  }

  /** `get_all` on the file as it stands. */
  function Listing(f: FileState): (r: Result<seq<CustomerValue>>)
    ensures f.Unreadable? ==> r == Err(UnreadableFile)
    ensures f.Absent? || f.Corrupt? ==> r == Ok([])
    ensures r.Ok? <==> !f.Unreadable? && (f.Stored? ==> forall i :: 0 <= i < |f.records| ==> Decode(f.records[i]).Ok?)
  {
    var rs :- ReadRecords(f);
    DecodeAll(rs)
  }

  // ---------------------------------------------------------------------
  // Upsert (the list computed by save)
  // ---------------------------------------------------------------------

  /** The record's `id` is present and equals `id`. */
  predicate HasId(rec: Record, id: string) {
    "id" in rec && rec["id"] == JStr(id)
  }

  /** The scan of `save` from index `from`: the first record whose `id`
      equals `id`, or None; reading `c['id']` raises KeyError on a record
      without an id that comes before any match. */
  function FindSlot(rs: seq<Record>, id: string, from: nat): (r: Result<Option<nat>>)
    requires from <= |rs|
    decreases |rs| - from
    ensures r.Ok? && r.value.Some? ==> from <= r.value.value < |rs| && HasId(rs[r.value.value], id)
    ensures r.Ok? && r.value.Some? ==> forall j :: from <= j < r.value.value ==> "id" in rs[j] && !HasId(rs[j], id)
    ensures r == Ok(None) ==> forall j :: from <= j < |rs| ==> "id" in rs[j] && !HasId(rs[j], id)
    ensures r.Err? ==> r.error == MissingKey("id")
    ensures r.Err? ==> exists j :: from <= j < |rs| && "id" !in rs[j]
                                   && forall k :: from <= k < j ==> !HasId(rs[k], id)
  {
    if from == |rs| then Ok(None)
    else if "id" !in rs[from] then Err(MissingKey("id"))
    else if rs[from]["id"] == JStr(id) then Ok(Some(from))
    else FindSlot(rs, id, from + 1)
  }

  /** The list `save` writes back: `rec` in place of the first record with
      the same id, or appended when there is none. */
  function Upsert(rs: seq<Record>, rec: Record, id: string): (r: Result<seq<Record>>)
    ensures r.Err? <==> FindSlot(rs, id, 0).Err?
    ensures r.Ok? ==> |rs| <= |r.value| <= |rs| + 1 && rec in r.value
    ensures r.Ok? ==> forall k :: 0 <= k < |rs| && !HasId(rs[k], id) ==> r.value[k] == rs[k]
  {
    var slot :- FindSlot(rs, id, 0);
    match slot
    case Some(i) =>
      assert rs[i := rec][i] == rec;
      Ok(rs[i := rec])
    case None => Ok(rs + [rec])
  }

  /** `save` without the file. */
  function Saved(f: FileState, c: CustomerValue): (r: Result<seq<Record>>)
    ensures f.Unreadable? ==> r == Err(UnreadableFile)
    ensures f.Absent? || f.Corrupt? ==> r == Ok([c.ToDict()])
  {
    var rs :- ReadRecords(f);
    assert rs == [] ==> rs + [c.ToDict()] == [c.ToDict()];
    Upsert(rs, c.ToDict(), c.id)
  }

  /** At most one record carries any given id. */
  ghost predicate UniqueIds(rs: seq<Record>) {
    forall i, j :: 0 <= i < j < |rs| && "id" in rs[i] && "id" in rs[j] ==> rs[i]["id"] != rs[j]["id"]
  }

  // ---------------------------------------------------------------------
  // find_by_id
  // ---------------------------------------------------------------------

  /** The first customer with the given id, or None. */
  function FindFirst(cs: seq<CustomerValue>, id: string): (r: Option<CustomerValue>)
    ensures r.None? <==> forall i :: 0 <= i < |cs| ==> cs[i].id != id
    ensures r.Some? ==> exists i :: 0 <= i < |cs| && cs[i] == r.value && r.value.id == id
                                    && forall j :: 0 <= j < i ==> cs[j].id != id
  {
    if cs == [] then None
    else if cs[0].id == id then Some(cs[0])
    else FindFirst(cs[1..], id)
  }

  // ---------------------------------------------------------------------
  // The repository object
  // ---------------------------------------------------------------------

  /** JSONRepository, the file-backed implementation of the
      CustomerRepository interface (save, get_all, find_by_id). */
  class JsonRepository {
    /** The content of the file at `file_path`. */
    var file: FileState

    /** `__init__`: a missing file is created holding the empty list at
        once; an existing file is left as it is. */
    constructor (existing: FileState)
      ensures file == if existing.Absent? then Stored([]) else existing
    {
      file := existing;
      new;
      if existing.Absent? {
        WriteToFile([]);
      }
    }

    /** `_read_file` */
    method ReadFile() returns (r: Result<seq<Record>>)
      ensures r == ReadRecords(file)
    {
      r := ReadRecords(file);
    }

    /** `_write_to_file`: the whole file is replaced by `data`. */
    method WriteToFile(data: seq<Record>)
      modifies this
      ensures file == Stored(data)
    {
      file := Stored(data);
    }

    /** `save`: read the list, replace the first record with the
        customer's id or append, write the whole list back. When the read or
        the scan raises, nothing is written. */
    method Save(customer: Customer) returns (r: Outcome)
      modifies this
      ensures var s := Saved(old(file), customer.Value());
              && (s.Ok? ==> r == Pass && file == Stored(s.value))
              && (s.Err? ==> r == Fail(s.error) && file == old(file))
    {
      var read := ReadFile();
      if read.Err? {
        return Fail(read.error);
      }
      var data := read.value;
      var newData := customer.Value().ToDict();
      var found := false;
      var i := 0;
      while i < |data|
        invariant 0 <= i <= |data|
        invariant data == read.value
        invariant FindSlot(data, customer.id, 0) == FindSlot(data, customer.id, i)
      {
        if "id" !in data[i] {
          return Fail(MissingKey("id"));
        }
        if data[i]["id"] == JStr(customer.id) {
          data := data[i := newData];
          found := true;
          break;
        }
        i := i + 1;
      }
      if !found {
        data := data + [newData];
      }
      WriteToFile(data);
      r := Pass;
    }

    /** `get_all` */
    method GetAll() returns (r: Result<seq<CustomerValue>>)
      ensures r == Listing(file)
    {
      var read := ReadFile();
      if read.Err? {
        return Err(read.error);
      }
      var raw := read.value;
      var customers: seq<CustomerValue> := [];
      var i := 0;
      while i < |raw|
        invariant 0 <= i <= |raw|
        invariant DecodeAll(raw[..i]) == Ok(customers)
      {
        var decoded := Decode(raw[i]);
        if decoded.Err? {
          DecodeAllFailsAt(raw, i);
          return Err(decoded.error);
        }
        DecodeAllExtends(raw, i);
        customers := customers + [decoded.value];
        i := i + 1;
      }
      assert raw[..i] == raw;
      r := Ok(customers);
    }

    /** `find_by_id`: the first listed customer with the id, None when there
        is none; only a failing listing is an error. */
    method FindById(id: string) returns (r: Result<Option<CustomerValue>>)
      ensures Listing(file).Err? ==> r == Err(Listing(file).error)
      ensures Listing(file).Ok? ==> r == Ok(FindFirst(Listing(file).value, id))
    {
      var all := GetAll();
      if all.Err? {
        return Err(all.error);
      }
      var cs := all.value;
      var i := 0;
      while i < |cs|
        invariant 0 <= i <= |cs|
        invariant FindFirst(cs[i..], id) == FindFirst(cs, id)
      {
        if cs[i].id == id {
          return Ok(Some(cs[i]));
        }
        assert cs[i..][1..] == cs[i + 1..];
        i := i + 1;
      }
      r := Ok(None);
    }
  }

  // ---------------------------------------------------------------------
  // Properties
  // ---------------------------------------------------------------------

  /** When every record before index `i` turns back and record `i` does
      not, the listing fails with the error of record `i`. */
  lemma DecodeAllFailsAt(rs: seq<Record>, i: nat)
    requires i < |rs| && Decode(rs[i]).Err?
    requires DecodeAll(rs[..i]).Ok?
    ensures DecodeAll(rs) == Err(Decode(rs[i]).error)
  {
    assert Decoded(rs[..i]) == Decoded(rs)[..i];
    CollectFailsAt(Decoded(rs), i);
  }

  /** Listing one more record appends what that record turns back into. */
  lemma DecodeAllExtends(rs: seq<Record>, i: nat)
    requires i < |rs| && DecodeAll(rs[..i]).Ok? && Decode(rs[i]).Ok?
    ensures DecodeAll(rs[..i + 1]) == Ok(DecodeAll(rs[..i]).value + [Decode(rs[i]).value])
  {
    var xs := Decoded(rs[..i + 1]);
    assert xs[..i] == Decoded(rs[..i]);
  }

  /** A repository opened on a missing path lists no customers. */
  method OpenMissingAndList() returns (all: Result<seq<CustomerValue>>)
    ensures all == Ok([])
  {
    var repo := new JsonRepository(Absent);
    all := repo.GetAll();
  }

  /** Missing or malformed content lists as empty; an unreadable file is
      the only failure of the read itself. */
  lemma ListingOfUnparsedFile(f: FileState)
    ensures f.Absent? || f.Corrupt? ==> Listing(f) == Ok([])
    ensures f.Unreadable? ==> Listing(f) == Err(UnreadableFile)
  {
  }

  /** `get_all` dispatches on exactly the class names `to_dict` writes. */
  lemma DispatchTagsAreClassNames(v: Variant, tag: Json)
    ensures KindOfTag(JStr(ClassName(v))) == Some(KindOf(v))
    ensures KindOfTag(tag).Some? <==> exists w :: tag == JStr(ClassName(w))
  {
    if KindOfTag(tag).Some? {
      var w := match KindOfTag(tag).value
        case RegularKind => Regular
        case PremiumKind => Premium(0)
        case CorporateKind => Corporate("", "", "");
      assert tag == JStr(ClassName(w));
    }
  }

  /** Decoding inverts `Describes`: a record turns back into `c` exactly
      when it is a faithful record of `c`. */
  lemma DecodeIffDescribes(item: Record, c: CustomerValue)
    ensures Decode(item) == Ok(c) <==> Describes(item, c)
  {
    if Describes(item, c) {
      assert KindOfTag(TypeTag(item)) == Some(KindOf(c.variant));
      match c.variant
      case Regular =>
      case Premium(p) =>
      case Corporate(_, _, _) =>
    }
  }

  /** A record that turns back into a customer names that customer's id. */
  lemma DecodedId(item: Record, c: CustomerValue)
    requires Decode(item) == Ok(c)
    ensures HasId(item, c.id)
  {
  }

  /** The fields of each class that `get_all` reads beyond the base ones. */
  function VariantFields(v: Variant): Record {
    match v
    case Regular => map[]
    case Premium(p) => map["loyalty_points" := JInt(p)]
    case Corporate(company, taxId, position) =>
      map["company_name" := JStr(company), "tax_id" := JStr(taxId), "position" := JStr(position)]
  }

  /** The record `to_dict` builds turns back into a customer of the same
      class with the same base fields: exactly for a regular customer, with
      zero points for a premium customer (the dictionary has no points), and
      not at all for a corporate customer, whose dictionary lacks
      `company_name`. */
  lemma ToDictRoundTrip(c: CustomerValue)
    ensures c.variant.Regular? ==> Decode(c.ToDict()) == Ok(c)
    ensures c.variant.Premium? ==> Decode(c.ToDict()) == Ok(c.(variant := Premium(0)))
    ensures c.variant.Corporate? ==> Decode(c.ToDict()) == Err(MissingKey("company_name"))
    ensures Decode(c.ToDict()).Ok? ==> Decode(c.ToDict()).value.Equals(CustomerObject(c))
  {
    if !c.variant.Corporate? {
      var d := if c.variant.Regular? then c else c.(variant := Premium(0));
      DecodeIffDescribes(c.ToDict(), d);
    }
  }

  /** The dictionary extended with the fields of its class turns back into
      exactly the customer it was built from. */
  lemma ExtendedDictRoundTrip(c: CustomerValue)
    ensures Decode(c.ToDict() + VariantFields(c.variant)) == Ok(c)
  {
    DecodeIffDescribes(c.ToDict() + VariantFields(c.variant), c);
  }

  /** Saving a customer whose id no stored record carries appends its
      dictionary: one record more, the others as they were. */
  lemma UpsertNewId(rs: seq<Record>, rec: Record, id: string)
    requires forall j :: 0 <= j < |rs| ==> "id" in rs[j] && !HasId(rs[j], id)
    ensures Upsert(rs, rec, id) == Ok(rs + [rec])
    ensures |Upsert(rs, rec, id).value| == |rs| + 1
  {
  }

  /** Saving a customer whose id is stored replaces the first record with
      that id, at its index, and nothing else. */
  lemma UpsertExistingId(rs: seq<Record>, rec: Record, id: string, i: nat)
    requires i < |rs| && HasId(rs[i], id)
    requires forall j :: 0 <= j < i ==> "id" in rs[j] && !HasId(rs[j], id)
    ensures Upsert(rs, rec, id) == Ok(rs[i := rec])
    ensures |Upsert(rs, rec, id).value| == |rs|
  {
    SlotIsFirstMatch(rs, id, i, 0);
  }

  /** The scan from `from` stops at the first match. */
  lemma {:induction false} SlotIsFirstMatch(rs: seq<Record>, id: string, i: nat, from: nat)
    requires from <= i < |rs| && HasId(rs[i], id)
    requires forall j :: from <= j < i ==> "id" in rs[j] && !HasId(rs[j], id)
    ensures FindSlot(rs, id, from) == Ok(Some(i))
    decreases i - from
  {
    if from < i {
      SlotIsFirstMatch(rs, id, i, from + 1);
    }
  }

  /** The scan from `from` fails when a record without an id comes before
      any match. */
  lemma {:induction false} SlotFailsAt(rs: seq<Record>, id: string, j: nat, from: nat)
    requires from <= j < |rs| && "id" !in rs[j]
    requires forall k :: from <= k < j ==> !HasId(rs[k], id)
    ensures FindSlot(rs, id, from).Err?
    decreases j - from
  {
    if from < j && "id" in rs[from] {
      SlotFailsAt(rs, id, j, from + 1);
    }
  }

  /** Saving fails only on a record without an id met before any match,
      and then the list is not written. */
  lemma UpsertFailsOnMissingId(rs: seq<Record>, rec: Record, id: string)
    ensures Upsert(rs, rec, id).Err? <==>
              exists j :: 0 <= j < |rs| && "id" !in rs[j] && forall k :: 0 <= k < j ==> !HasId(rs[k], id)
    ensures Upsert(rs, rec, id).Err? ==> Upsert(rs, rec, id).error == MissingKey("id")
  {
    if exists j :: 0 <= j < |rs| && "id" !in rs[j] && forall k :: 0 <= k < j ==> !HasId(rs[k], id) {
      var j :| 0 <= j < |rs| && "id" !in rs[j] && forall k :: 0 <= k < j ==> !HasId(rs[k], id);
      SlotFailsAt(rs, id, j, 0);
    }
  }

  /** Saving keeps ids unique, and afterwards exactly one record carries the
      saved id. */
  lemma UpsertKeepsIdsUnique(rs: seq<Record>, rec: Record, id: string)
    requires UniqueIds(rs) && HasId(rec, id)
    requires Upsert(rs, rec, id).Ok?
    ensures UniqueIds(Upsert(rs, rec, id).value)
    ensures exists k :: 0 <= k < |Upsert(rs, rec, id).value| && Upsert(rs, rec, id).value[k] == rec
                        && forall j :: 0 <= j < |Upsert(rs, rec, id).value| && j != k ==>
                             !HasId(Upsert(rs, rec, id).value[j], id)
  {
    var out := Upsert(rs, rec, id).value;
    var slot := FindSlot(rs, id, 0).value;
    var k := if slot.Some? then slot.value else |rs|;
    assert out[k] == rec;
    forall j | 0 <= j < |out| && j != k
      ensures !HasId(out[j], id)
    {
      assert out[j] == rs[j];
      if j < k {
        assert "id" in rs[j] && !HasId(rs[j], id);
      } else {
        assert "id" in rs[k] && rs[k]["id"] == JStr(id);
      }
    }
  }

  /** Saving the same customer twice gives the same list as saving it once. */
  lemma UpsertIdempotent(rs: seq<Record>, rec: Record, id: string)
    requires HasId(rec, id)
    requires Upsert(rs, rec, id).Ok?
    ensures Upsert(Upsert(rs, rec, id).value, rec, id) == Upsert(rs, rec, id)
  {
    var out := Upsert(rs, rec, id).value;
    var slot := FindSlot(rs, id, 0).value;
    var k := if slot.Some? then slot.value else |rs|;
    SlotIsFirstMatch(out, id, k, 0);
    assert out[k := rec] == out;
  }

  /** After a save, looking the saved id up finds what the saved dictionary
      turns back into (for a regular customer, the customer itself), as long
      as the list can be listed at all. */
  lemma FindAfterUpsert(rs: seq<Record>, c: CustomerValue)
    requires Upsert(rs, c.ToDict(), c.id).Ok?
    requires DecodeAll(Upsert(rs, c.ToDict(), c.id).value).Ok?
    ensures Decode(c.ToDict()).Ok?
    ensures FindFirst(DecodeAll(Upsert(rs, c.ToDict(), c.id).value).value, c.id) == Some(Decode(c.ToDict()).value)
    ensures c.variant.Regular? ==> FindFirst(DecodeAll(Upsert(rs, c.ToDict(), c.id).value).value, c.id) == Some(c)
  {
    var out := Upsert(rs, c.ToDict(), c.id).value;
    var cs := DecodeAll(out).value;
    var slot := FindSlot(rs, c.id, 0).value;
    var k := if slot.Some? then slot.value else |rs|;
    assert out[k] == c.ToDict();
    assert Decode(out[k]) == Ok(cs[k]);
    forall j | 0 <= j < k ensures cs[j].id != c.id {
      assert out[j] == rs[j];
      DecodedId(out[j], cs[j]);
    }
    DecodedId(out[k], cs[k]);
    FindFirstAt(cs, c.id, k);
    ToDictRoundTrip(c);
  }

  /** The first customer with the id is the one at the first index that
      carries it. */
  lemma FindFirstAt(cs: seq<CustomerValue>, id: string, k: nat)
    requires k < |cs| && cs[k].id == id
    requires forall j :: 0 <= j < k ==> cs[j].id != id
    ensures FindFirst(cs, id) == Some(cs[k])
  {
    var found := FindFirst(cs, id);
    var i :| 0 <= i < |cs| && cs[i] == found.value && found.value.id == id
             && forall j :: 0 <= j < i ==> cs[j].id != id;
    assert i == k;
  }
}
