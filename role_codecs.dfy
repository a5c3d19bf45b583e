/** How the clients carry a user's role. The API serialises UserRole as its
    number; the desktop client keeps the role as a string and converts at the
    JSON boundary with two converters (RoleToEnumConverter on the outgoing
    create-user body, RoleConverter on the login response), and the web
    client converts a numeric role to its name after login. */
module RoleCodecs {
  import opened Wrappers
  import opened Domain

  const Int32Min: int := -0x8000_0000
  const Int32Max: int := 0x7FFF_FFFF

  /** A JSON token as a converter's reader sees it: a number (any JSON
      number, so possibly fractional), a string, null, or another kind
      (true, false, an object or array start), named by its token type.
      `plain` records the number's text: true when it is written as an
      integer literal, with neither a decimal point nor an exponent. */
  datatype JsonToken = Number(value: real, plain: bool) | String(text: string) | Null | Other(kind: string)

  /** What reading a token can throw: FormatException from GetInt32,
      InvalidOperationException from GetString on a non-string token, and the
      converter's own JsonException. */
  datatype ReadError = FormatError | InvalidOperation | JsonError(message: string)

  /** The role name of a UserRole number; every other number reads as
      "Cashier". */
  function RoleName(n: int): (r: string)
    ensures UserRoleOf(n).Some? ==> r == UserRoleOf(n).value.Name()
    ensures UserRoleOf(n).None? ==> r == Cashier.Name()
  {
    if n == 1 then "Cashier"
    else if n == 2 then "Moderator"
    else if n == 3 then "SuperAdmin"
    else "Cashier"
  }

  /** Utf8JsonReader.GetInt32: the number when its text is an integer literal
      that fits in 32 bits; FormatException for a literal with a decimal point
      or an exponent (even `1.0` or `1e0`) and for one out of range. */
  function GetInt32(v: real, plain: bool): (r: Result<int, ReadError>)
    ensures r.Success? <==> plain && v == v.Floor as real && Int32Min <= v.Floor <= Int32Max
    ensures r.Success? ==> r.value as real == v
    ensures r.Failure? ==> r.error == FormatError
  {
    if plain && v == v.Floor as real && Int32Min <= v.Floor <= Int32Max then Success(v.Floor)
    else Failure(FormatError)
  }

  // ---------------------------------------------------------------------------
  // RoleToEnumConverter (desktop CreateUserDto)

  /** The role a new CreateUserDto starts with. */
  const DefaultRole: string := "Cashier"

  /** Read: a number becomes its role name; any other token is taken through
      GetString, which gives the text of a string, null for a JSON null (read
      as "Cashier"), and throws for every other kind. */
  function RoleToEnumRead(t: JsonToken): (r: Result<string, ReadError>)
    ensures t.Number? ==> (r.Success? <==> GetInt32(t.value, t.plain).Success?)
    ensures t.Number? && r.Success? ==> r.value == RoleName(GetInt32(t.value, t.plain).value)
    ensures t.String? ==> r == Success(t.text)
    ensures t.Null? ==> r == Success(DefaultRole)
    ensures t.Other? ==> r == Failure(InvalidOperation)
  {
    match t
    case Number(v, plain) =>
      var n :- GetInt32(v, plain);
      Success(RoleName(n))
    case String(s) => Success(s)
    case Null => Success("Cashier")
    case Other(_) => Failure(InvalidOperation)
  }

  /** Write: a role name becomes its UserRole number; every other string is
      written as 1 (Cashier). */
  function RoleToEnumWrite(value: string): (n: int)
    ensures 1 <= n <= 3
    ensures forall role: UserRole :: value == role.Name() ==> n == role.Value()
    ensures (forall role: UserRole :: value != role.Name()) ==> n == Cashier.Value()
  {
    if value == "Cashier" then 1
    else if value == "Moderator" then assert value == Moderator.Name(); 2
    else if value == "SuperAdmin" then assert value == SuperAdmin.Name(); 3
    else 1
  }

  /** Every role name survives a write followed by a read. */
  lemma RoleToEnumRoundTrip(role: UserRole)
    ensures RoleToEnumRead(Number(RoleToEnumWrite(role.Name()) as real, true)) == Success(role.Name())
  {
    var n := RoleToEnumWrite(role.Name());
    assert GetInt32(n as real, true) == Success(n);
  }

  /** Every defined role number survives a read followed by a write. */
  lemma RoleToEnumNumberRoundTrip(n: int)
    requires 1 <= n <= 3
    ensures RoleToEnumRead(Number(n as real, true)).Success?
    ensures RoleToEnumWrite(RoleToEnumRead(Number(n as real, true)).value) == n
  {
    assert GetInt32(n as real, true) == Success(n);
  }

  /** A string that names no role is sent as Cashier and comes back as
      "Cashier": the converter does not preserve it. */
  lemma UnknownRoleReadsBackAsCashier(value: string)
    requires forall role: UserRole :: value != role.Name()
    ensures RoleToEnumRead(Number(RoleToEnumWrite(value) as real, true)) == Success(DefaultRole)
  {
    assert value != Cashier.Name();
    assert GetInt32(1 as real, true) == Success(1);
  }

  // ---------------------------------------------------------------------------
  // RoleConverter (desktop AuthResponseDto)

  /** Read: a number becomes its role name, a string is kept, and any other
      token kind (null included) throws JsonException. */
  function RoleConverterRead(t: JsonToken): (r: Result<string, ReadError>)
    ensures t.Number? ==> r == RoleToEnumRead(t)
    ensures t.String? ==> r == Success(t.text)
    ensures (t.Null? || t.Other?) ==> r.Failure? && r.error.JsonError?
  {
    match t
    case Number(v, plain) =>
      var n :- GetInt32(v, plain);
      Success(RoleName(n))
    case String(s) => Success(s)
    case Null => Failure(JsonError("Unexpected token type: Null"))
    case Other(kind) => Failure(JsonError("Unexpected token type: " + kind))
  }

  /** Write: the string as a JSON string. */
  function RoleConverterWrite(value: string): (t: JsonToken)
    ensures t.String?
  {
    String(value)
  }

  /** Any role string survives a write followed by a read. */
  lemma RoleConverterRoundTrip(value: string)
    ensures RoleConverterRead(RoleConverterWrite(value)) == Success(value)
  {
  }

  /** The two desktop readers part only on a JSON null: one reads it as
      "Cashier", the other throws. */
  lemma ReadersDifferOnNull()
    ensures RoleToEnumRead(Null) == Success(DefaultRole)
    ensures RoleConverterRead(Null).Failure?
  {
  }

  // ---------------------------------------------------------------------------
  // convertRoleToString (web AuthService)

  /** The role field of a login response as JavaScript sees it. */
  datatype RoleValue = RoleNumber(value: real) | RoleText(text: string)

  /** A number is compared with 1, 2 and 3 (anything else is "Cashier"); a
      string is returned as it is. */
  function ConvertRoleToString(role: RoleValue): (r: string)
    ensures role.RoleText? ==> r == role.text
    ensures role.RoleNumber? ==> r in {Cashier.Name(), Moderator.Name(), SuperAdmin.Name()}
  {
    match role
    case RoleNumber(v) =>
      if v == 1.0 then "Cashier"
      else if v == 2.0 then "Moderator"
      else if v == 3.0 then "SuperAdmin"
      else "Cashier"
    case RoleText(s) => s
  }

  /** On an integer literal that fits in 32 bits the web client and both
      desktop readers give the same name, the UserRole name when the number is
      defined. */
  lemma ClientsAgreeOnRoleNumbers(n: int)
    requires Int32Min <= n <= Int32Max
    ensures ConvertRoleToString(RoleNumber(n as real)) == RoleName(n)
    ensures RoleToEnumRead(Number(n as real, true)) == Success(RoleName(n))
    ensures RoleConverterRead(Number(n as real, true)) == Success(RoleName(n))
  {
    assert GetInt32(n as real, true) == Success(n);
  }

  /** A role number written with a decimal point is read by its value on the
      web and rejected by both desktop readers, whose GetInt32 refuses the
      literal `2.0`. */
  lemma DecimalPointRoleNumber()
    ensures ConvertRoleToString(RoleNumber(2.0)) == Moderator.Name()
    ensures RoleToEnumRead(Number(2.0, false)) == Failure(FormatError)
    ensures RoleConverterRead(Number(2.0, false)) == Failure(FormatError)
  {
  }

  /** A fractional role number is read as "Cashier" on the web and rejected
      by the desktop readers. */
  lemma FractionalRoleNumber()
    ensures ConvertRoleToString(RoleNumber(1.5)) == DefaultRole
    ensures RoleToEnumRead(Number(1.5, false)).Failure?
    ensures RoleConverterRead(Number(1.5, false)).Failure?
  {
    assert (1.5).Floor == 1;
  }
}
