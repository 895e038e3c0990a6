/** Ruby values as the record layer handles them, the two backing stores'
    entry shapes, the error taxonomy, and the string conversion (`to_s`)
    that builds keys such as `domain + "/" + id`. */
module Values {

  datatype Option<T> = None | Some(value: T)

  /** A value a record property can hold once folded, and hence a value the
      blob store can hold once marshalled: nil, booleans, integers, strings,
      arrays and hashes (a hash is the sequence of its entries in the order
      they were added; keys are the names of symbols). */
  datatype Value =
    | Nil
    | Bool(b: bool)
    | Int(i: int)
    | Str(s: string)
    | List(items: seq<Value>)
    | Hash(entries: seq<(string, Value)>)

  /** Ruby truthiness: everything except nil and false counts as true. */
  predicate Truthy(v: Value) {
    !(v.Nil? || v == Bool(false))
  }

  /** A blob-store entry. The sequence counter is written raw, as the decimal
      text of an integer (`db.set(key, id.to_s)`); everything else goes
      through `db_set`, whose marshalling is taken to be the identity. */
  datatype Entry = Raw(n: int) | Dumped(v: Value)

  type Db = map<string, Entry>

  /** A search-index document: field name to value. */
  type IndexDoc = map<string, Value>

  /** The errors the core raises. RecordNotFound and RecordsNotFound are the two
      messages of Sirop::RecordNotFound; MissingModel is unfold_association's
      ArgumentError; NotAModel is calling `find` on a
      `:model` class that is not a registered record type; UnknownProperty is the NoMethodError of looking up a name
      that is not a property; CorruptEntry is Marshal.load failing on an entry
      that was never marshalled; NotAHash is iterating a stored value that is
      not a hash; StackExhausted is Ruby's stack running out. */
  datatype Error =
    | RecordNotFound(id: Value)
    | RecordsNotFound(expected: nat, found: nat)
    | MissingModel(name: string)
    | NotAModel(model: string)
    | UnknownProperty(name: string)
    | CorruptEntry(key: string)
    | NotAHash(key: string)
    | StackExhausted

  datatype Result<T> = Ok(value: T) | Err(error: Error)

  /** `Sirop.db_get(key)`: the unmarshalled value, nil when the key is absent. */
  function DbGet(db: Db, key: string): (r: Result<Value>)
    ensures key !in db ==> r == Ok(Nil)
    ensures key in db && db[key].Dumped? ==> r == Ok(db[key].v)
    ensures key in db && db[key].Raw? ==> r == Err(CorruptEntry(key))
  {
    if key !in db then Ok(Nil)
    else match db[key]
      case Dumped(v) => Ok(v)
      case Raw(_) => Err(CorruptEntry(key))
  }

  /** `db_set` then `db_get`: the key gives back the value set, every other
      key what it gave before. */
  lemma DbSetGet(db: Db, k: string, v: Value, k2: string)
    ensures DbGet(db[k := Dumped(v)], k) == Ok(v)
    ensures k2 != k ==> DbGet(db[k := Dumped(v)], k2) == DbGet(db, k2)
  {
  }

  function Digit(d: nat): char
    requires d < 10
  {
    "0123456789"[d]
  }

  /** The decimal digits of a natural number, most significant first. */
  function NatDigits(n: nat): (s: string)
    ensures |s| >= 1
    ensures n >= 10 ==> |s| >= 2
    decreases n
  {
    if n < 10 then [Digit(n)] else NatDigits(n / 10) + [Digit(n % 10)]
  }

  /** `Integer#to_s`. */
  function Decimal(i: int): string {
    if i < 0 then "-" + NatDigits(-i) else NatDigits(i)
  }

  /** `to_s` as string interpolation applies it. Arrays and hashes join the
      strings of their parts, as Array#to_s and Hash#to_s do in Ruby 1.8. */
  function ToS(v: Value): string {
    match v
    case Nil => ""
    case Bool(b) => if b then "true" else "false"
    case Int(i) => Decimal(i)
    case Str(s) => s
    case List(items) => JoinToS(items)
    case Hash(entries) => JoinHashToS(entries)
  }

  function JoinToS(items: seq<Value>): string
    decreases items
  {
    if items == [] then "" else ToS(items[0]) + JoinToS(items[1..])
  }

  function JoinHashToS(entries: seq<(string, Value)>): string
    decreases entries
  {
    if entries == [] then ""
    else
      var (k, x) := entries[0];
      assert x < entries[0];
      k + ToS(x) + JoinHashToS(entries[1..])
  }

  lemma DigitInjective(a: nat, b: nat)
    requires a < 10 && b < 10 && Digit(a) == Digit(b)
    ensures a == b
  {
  }

  /** A digit string never starts with a minus sign. */
  lemma {:induction false} NatDigitsFirst(n: nat)
    ensures NatDigits(n)[0] != '-'
    decreases n
  {
    if n >= 10 {
      NatDigitsFirst(n / 10);
      assert NatDigits(n)[0] == NatDigits(n / 10)[0];
    }
  }

  /** Distinct natural numbers have distinct decimal representations. */
  lemma {:induction false} NatDigitsInjective(a: nat, b: nat)
    requires NatDigits(a) == NatDigits(b)
    ensures a == b
    decreases a
  {
    var s := NatDigits(a);
    if a < 10 && b < 10 {
      DigitInjective(a, b);
    } else if a >= 10 && b >= 10 {
      assert s[|s| - 1] == Digit(a % 10) && s[|s| - 1] == Digit(b % 10);
      DigitInjective(a % 10, b % 10);
      assert s[..|s| - 1] == NatDigits(a / 10);
      assert s[..|s| - 1] == NatDigits(b / 10);
      NatDigitsInjective(a / 10, b / 10);
    }
  }

  /** Integer#to_s is injective: two integer ids with the same text are equal. */
  lemma DecimalInjective(a: int, b: int)
    requires Decimal(a) == Decimal(b)
    ensures a == b
  {
    if a < 0 && b < 0 {
      assert NatDigits(-a) == Decimal(a)[1..];
      assert NatDigits(-b) == Decimal(b)[1..];
      NatDigitsInjective(-a, -b);
    } else if a >= 0 && b >= 0 {
      NatDigitsInjective(a, b);
    } else if a < 0 {
      NatDigitsFirst(b);
    } else {
      NatDigitsFirst(a);
    }
  }
}
