/** The flat record shape stored in the customer file: one JSON object per
    customer, a map from field name to a scalar JSON value. */
module Records {

  /** Scalar JSON values. Nested arrays and objects never occur in a customer
      record and are not represented. */
  datatype Json = JStr(str: string) | JInt(number: int) | JBool(flag: bool) | JNull

  type Record = map<string, Json>
}
