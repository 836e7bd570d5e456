/** The customer entity: its three concrete classes, the flat record it
    encodes to, its identity-based equality and its display string, and the
    mutable object whose setters check their argument. */
module Models {
  import opened Records
  import opened Errors

  /** The concrete subclass of Customer together with the fields it adds:
      RegularCustomer adds none, PremiumCustomer adds loyalty points and
      CorporateCustomer adds the company name, tax id and position. */
  datatype Variant =
    | Regular
    | Premium(loyaltyPoints: int)
    | Corporate(companyName: string, taxId: string, position: string)

  /** `self.__class__.__name__` */
  function ClassName(v: Variant): (r: string)
    ensures (r == "RegularCustomer") == v.Regular?
    ensures (r == "PremiumCustomer") == v.Premium?
    ensures (r == "CorporateCustomer") == v.Corporate?
  {
    match v
    case Regular => "RegularCustomer"
    case Premium(_) => "PremiumCustomer"
    case Corporate(_, _, _) => "CorporateCustomer"
  }

  /** The keys of the dictionary built by `Customer.to_dict`. */
  const DictKeys: set<string> := {"id", "name", "email", "phone", "type"}

  /** The field values of one Customer object. */
  datatype CustomerValue = CustomerValue(id: string, name: string, email: string, phone: string, variant: Variant)
  {
    /** `to_dict`: the base fields under their own keys and the class name
        under `type`; the subclass fields are not part of it. */
    function ToDict(): (r: Record)
      ensures r.Keys == DictKeys
      ensures r["id"] == JStr(id) && r["name"] == JStr(name)
      ensures r["email"] == JStr(email) && r["phone"] == JStr(phone)
      ensures r["type"] == JStr(ClassName(variant))
    {
      map["id" := JStr(id), "name" := JStr(name), "email" := JStr(email),
          "phone" := JStr(phone), "type" := JStr(ClassName(variant))]
    }

    /** `__eq__`: another Customer of any class is equal exactly when its id
        is; anything that is not a Customer is unequal. */
    function Equals(other: Operand): (r: bool)
      ensures other.OtherObject? ==> !r
      ensures other.CustomerObject? ==> (r <==> other.customer.id == id)
    {
      match other
      case OtherObject => false
      case CustomerObject(c) => id == c.id
    }

    /** `__str__`: `[<ClassName>] <name> (<email>)` */
    function ToString(): (r: string)
      ensures |r| == |ClassName(variant)| + |name| + |email| + 6
      ensures r[..|ClassName(variant)| + 2] == "[" + ClassName(variant) + "]"
      ensures r[|ClassName(variant)| + 2..|r| - |email| - 2] == " " + name + " "
      ensures r[|r| - |email| - 2..] == "(" + email + ")"
    {
      var cn := ClassName(variant);
      var r := "[" + cn + "] " + name + " (" + email + ")";
      assert r == ("[" + cn + "]") + (" " + name + " ") + ("(" + email + ")");
      r
    }
  }

  /** The right-hand operand of `==`: a Customer, or any other object. */
  datatype Operand = CustomerObject(customer: CustomerValue) | OtherObject

  /** Equality of customers is an equivalence decided by the id alone: it is
      reflexive, symmetric and transitive, and replacing every other field of
      either side changes nothing. */
  lemma EqualsIsIdentity(a: CustomerValue, b: CustomerValue, c: CustomerValue, b': CustomerValue)
    requires b'.id == b.id
    ensures a.Equals(CustomerObject(a))
    ensures a.Equals(CustomerObject(b)) == b.Equals(CustomerObject(a))
    ensures a.Equals(CustomerObject(b)) && b.Equals(CustomerObject(c)) ==> a.Equals(CustomerObject(c))
    ensures a.Equals(CustomerObject(b)) == a.Equals(CustomerObject(b'))
  {
  }

  /** Customers of different classes never render the same display string. */
  lemma ToStringShowsClass(a: CustomerValue, b: CustomerValue)
    ensures a.ToString() == b.ToString() ==> ClassName(a.variant) == ClassName(b.variant)
  {
    var s := a.ToString();
    if s == b.ToString() {
      assert s[1] == ClassName(a.variant)[0];
      assert b.ToString()[1] == ClassName(b.variant)[0];
    }
  }

  /** A Customer object. The id has a getter and no setter; name, email and
      phone are properties whose setters the object runs on assignment; the
      subclass fields are fixed by the constructor. */
  class Customer {
    const id: string
    var name: string
    var email: string
    var phone: string
    const variant: Variant

    /** The current field values. */
    function Value(): CustomerValue
      reads this
    {
      CustomerValue(id, name, email, phone, variant)
    }

    /** `Customer.__init__` stores its arguments without checking them. */
    constructor (id: string, name: string, email: string, phone: string, variant: Variant)
      ensures Value() == CustomerValue(id, name, email, phone, variant)
    {
      this.id := id;
      this.name := name;
      this.email := email;
      this.phone := phone;
      this.variant := variant;
    }

    /** The `name` setter: an empty name raises ValueError and leaves the
        object as it was; any other name replaces the current one. */
    method SetName(value: string) returns (r: Outcome)
      modifies this`name
      ensures value == "" ==> r == Fail(EmptyValue("name")) && Value() == old(Value())
      ensures value != "" ==> r == Pass && Value() == old(Value()).(name := value)
    {
      if value == "" {
        return Fail(EmptyValue("name"));
      }
      name := value;
      r := Pass;
    }

    /** The `email` setter accepts any value. */
    method SetEmail(value: string)
      modifies this`email
      ensures Value() == old(Value()).(email := value)
    {
      email := value;
    }

    /** The `phone` setter: an empty phone raises ValueError and leaves the
        object as it was; any other phone replaces the current one. */
    method SetPhone(value: string) returns (r: Outcome)
      modifies this`phone
      ensures value == "" ==> r == Fail(EmptyValue("phone")) && Value() == old(Value())
      ensures value != "" ==> r == Pass && Value() == old(Value()).(phone := value)
    {
      if value == "" {
        return Fail(EmptyValue("phone"));
      }
      phone := value;
      r := Pass;
    }
  }
}
