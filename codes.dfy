/** The code tables: TYPE, CLASS, QTYPE and QCLASS values and their
    conversions from 16-bit wire codes. They follow sections 3.2.2 to 3.2.5
    of RFC 1035, plus the AAAA type (28) of RFC 3596. */
module Codes {
  import opened Wire

  /** TYPE values a resource record may carry. */
  datatype ResponseType =
    | A | NS | MD | MF | CNAME | SOA | MB | MG | MR | NULL
    | WKS | PTR | HINFO | MINFO | MX | TXT | AAAA

  /** CLASS values a resource record may carry. */
  datatype ResponseClass = IN | CS | CH | HS

  /** QTYPE values: every TYPE of 1 to 16, and the four query-only codes. */
  datatype QueryType =
    | A | NS | MD | MF | CNAME | SOA | MB | MG | MR | NULL
    | WKS | PTR | HINFO | MINFO | MX | TXT | AXFR | MAILB | MAILA | All

  /** QCLASS values: the four classes and the wildcard. */
  datatype QueryClass = IN | CS | CH | HS | All

  /** The declared discriminant of a TYPE (`t as u16`). */
  function ResponseTypeCode(t: ResponseType): (v: u16)
    ensures 1 <= v <= 16 || v == 28
  {
    match t
    case A => 1  case NS => 2  case MD => 3  case MF => 4
    case CNAME => 5  case SOA => 6  case MB => 7  case MG => 8
    case MR => 9  case NULL => 10  case WKS => 11  case PTR => 12
    case HINFO => 13  case MINFO => 14  case MX => 15  case TXT => 16
    case AAAA => 28
  }

  /** `ResponseType::from`: the TYPE whose discriminant is `v`; any other
      code panics. */
  function ResponseTypeFrom(v: u16): (r: Outcome<ResponseType>)
    ensures r.Ok? <==> 1 <= v <= 16 || v == 28
    ensures r.Ok? ==> ResponseTypeCode(r.value) == v
    ensures !r.Ok? ==> r == Panic
  {
    match v
    case 1 => Ok(ResponseType.A)  case 2 => Ok(ResponseType.NS)
    case 3 => Ok(ResponseType.MD)  case 4 => Ok(ResponseType.MF)
    case 5 => Ok(ResponseType.CNAME)  case 6 => Ok(ResponseType.SOA)
    case 7 => Ok(ResponseType.MB)  case 8 => Ok(ResponseType.MG)
    case 9 => Ok(ResponseType.MR)  case 10 => Ok(ResponseType.NULL)
    case 11 => Ok(ResponseType.WKS)  case 12 => Ok(ResponseType.PTR)
    case 13 => Ok(ResponseType.HINFO)  case 14 => Ok(ResponseType.MINFO)
    case 15 => Ok(ResponseType.MX)  case 16 => Ok(ResponseType.TXT)
    case 28 => Ok(ResponseType.AAAA)
    case _ => Panic
  }

  /** The discriminant of a CLASS. */
  function ResponseClassCode(c: ResponseClass): (v: u16)
    ensures 1 <= v <= 4
  {
    match c
    case IN => 1  case CS => 2  case CH => 3  case HS => 4
  }

  /** `ResponseClass::from`: codes 1 to 4; any other code panics. */
  function ResponseClassFrom(v: u16): (r: Outcome<ResponseClass>)
    ensures r.Ok? <==> 1 <= v <= 4
    ensures r.Ok? ==> ResponseClassCode(r.value) == v
    ensures !r.Ok? ==> r == Panic
  {
    match v
    case 1 => Ok(ResponseClass.IN)  case 2 => Ok(ResponseClass.CS)
    case 3 => Ok(ResponseClass.CH)  case 4 => Ok(ResponseClass.HS)
    case _ => Panic
  }

  /** The discriminant of a QTYPE. */
  function QueryTypeCode(t: QueryType): (v: u16)
    ensures 1 <= v <= 16 || 252 <= v <= 255
  {
    match t
    case A => 1  case NS => 2  case MD => 3  case MF => 4
    case CNAME => 5  case SOA => 6  case MB => 7  case MG => 8
    case MR => 9  case NULL => 10  case WKS => 11  case PTR => 12
    case HINFO => 13  case MINFO => 14  case MX => 15  case TXT => 16
    case AXFR => 252  case MAILB => 253  case MAILA => 254  case All => 255
  }

  /** `QueryType::try_from`: a recoverable `Err` for an unknown code, never
      a panic. */
  function QueryTypeTryFrom(v: u16): (r: Outcome<QueryType>)
    ensures r.Ok? <==> 1 <= v <= 16 || 252 <= v <= 255
    ensures r.Ok? ==> QueryTypeCode(r.value) == v
    ensures !r.Ok? ==> r == Err
  {
    match v
    case 1 => Ok(QueryType.A)  case 2 => Ok(QueryType.NS)
    case 3 => Ok(QueryType.MD)  case 4 => Ok(QueryType.MF)
    case 5 => Ok(QueryType.CNAME)  case 6 => Ok(QueryType.SOA)
    case 7 => Ok(QueryType.MB)  case 8 => Ok(QueryType.MG)
    case 9 => Ok(QueryType.MR)  case 10 => Ok(QueryType.NULL)
    case 11 => Ok(QueryType.WKS)  case 12 => Ok(QueryType.PTR)
    case 13 => Ok(QueryType.HINFO)  case 14 => Ok(QueryType.MINFO)
    case 15 => Ok(QueryType.MX)  case 16 => Ok(QueryType.TXT)
    case 252 => Ok(QueryType.AXFR)  case 253 => Ok(QueryType.MAILB)
    case 254 => Ok(QueryType.MAILA)  case 255 => Ok(QueryType.All)
    case _ => Err
  }

  /** The discriminant of a QCLASS. */
  function QueryClassCode(c: QueryClass): (v: u16)
    ensures 1 <= v <= 4 || v == 255
  {
    match c
    case IN => 1  case CS => 2  case CH => 3  case HS => 4  case All => 255
  }

  /** `QueryClass::from`: codes 1 to 4 and 255; any other code panics. */
  function QueryClassFrom(v: u16): (r: Outcome<QueryClass>)
    ensures r.Ok? <==> 1 <= v <= 4 || v == 255
    ensures r.Ok? ==> QueryClassCode(r.value) == v
    ensures !r.Ok? ==> r == Panic
  {
    match v
    case 1 => Ok(QueryClass.IN)  case 2 => Ok(QueryClass.CS)
    case 3 => Ok(QueryClass.CH)  case 4 => Ok(QueryClass.HS)
    case 255 => Ok(QueryClass.All)
    case _ => Panic
  }

  /** Converting a TYPE to its code and back gives the same TYPE, so the
      table is injective and agrees with the discriminants. */
  lemma ResponseTypeRoundTrip(t: ResponseType)
    ensures ResponseTypeFrom(ResponseTypeCode(t)) == Ok(t)
  {
  }

  /** The same for CLASS. */
  lemma ResponseClassRoundTrip(c: ResponseClass)
    ensures ResponseClassFrom(ResponseClassCode(c)) == Ok(c)
  {
  }

  /** The same for QTYPE. */
  lemma QueryTypeRoundTrip(t: QueryType)
    ensures QueryTypeTryFrom(QueryTypeCode(t)) == Ok(t)
  {
  }

  /** The same for QCLASS. */
  lemma QueryClassRoundTrip(c: QueryClass)
    ensures QueryClassFrom(QueryClassCode(c)) == Ok(c)
  {
  }
}
