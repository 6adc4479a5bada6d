/** JSON values, as far as the detached EAT reads and writes them. */
module Json {
  import opened Common

  datatype Value =
    | Null
    | Str(text: string)
    | Num(number: int)
    | Bool(flag: bool)
    | Arr(elements: seq<Value>)
    | Obj(fields: map<string, Value>)

  type Payload = map<string, Value>

  // ---------------------------------------------------------------------------
  // Decimal text
  // ---------------------------------------------------------------------------

  const DECIMAL := "0123456789"

  /** `std::to_string` of a number that is not negative. */
  function Decimal(n: nat): (s: string)
    ensures s != ""
  {
    if n < 10 then [DECIMAL[n]] else Decimal(n / 10) + [DECIMAL[n % 10]]
  }

  function Reading(s: string): int {
    if s == "" then 0 else 10 * Reading(s[..|s| - 1]) + (s[|s| - 1] as int - '0' as int)
  }

  lemma {:induction false} DecimalReads(n: nat)
    ensures Reading(Decimal(n)) == n
  {
    if n < 10 {
      assert Decimal(n)[..0] == "";
    } else {
      DecimalReads(n / 10);
      assert Decimal(n)[..|Decimal(n)| - 1] == Decimal(n / 10);
    }
  }

  // ---------------------------------------------------------------------------
  // Reading
  // ---------------------------------------------------------------------------

  /** What `items()` walks: the fields, the elements under their positions, or one bare value. */
  function Items(v: Value): Payload {
    match v
    case Obj(fields) => fields
    case Arr(elements) => Positions(elements)
    case Null => map[]
    case _ => map["" := v]
  }

  function Positions(elements: seq<Value>): Payload {
    if elements == [] then map[]
    else Positions(elements[..|elements| - 1])[Decimal(|elements| - 1) := elements[|elements| - 1]]
  }

  /** `v.at(n)`. */
  function At(v: Value, n: nat): Option<Value> {
    if v.Arr? && n < |v.elements| then Some(v.elements[n]) else None
  }

  /** `p.at(key).get<std::string>()`. */
  function Text(p: Payload, key: string): Option<string> {
    if key in p && p[key].Str? then Some(p[key].text) else None
  }

  /** `p.at(key).get<std::int64_t>()`: truth values convert to numbers too. */
  function Number(p: Payload, key: string): Option<int> {
    if key !in p then None
    else match p[key]
      case Num(n) => Some(n)
      case Bool(b) => Some(if b then 1 else 0)
      case _ => None
  }

  function Flag(p: Payload, key: string): Option<bool> {
    if key in p && p[key].Bool? then Some(p[key].flag) else None
  }
}
