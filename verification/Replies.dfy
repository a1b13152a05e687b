/** Server replies and their wire form, by the general encoder and by the direct writers. */
module Replies {
  import opened Basics
  import opened Decimal
  import opened Resp
  import opened Keyspace

  /**
   * `Unordered` stands for a listing whose order the hash table chooses, `Info` for the
   * introspection texts; neither has a modelled wire form.
   */
  datatype Reply =
    | Simple(text: Bytes)
    | Error(text: Bytes)
    | Int(n: int)
    | Bulk(bytes: Option<Bytes>)
    | Array(items: seq<Reply>)
    | NullArray
    | Unordered(answer: Answer)
    | Info

  const COLON: Byte := 58
  const WRONGTYPE := Ascii("WRONGTYPE Operation against a key holding the wrong kind of value")
  const NOT_INTEGER := Ascii("value is not an integer or out of range")
  const OVERFLOW := Ascii("increment or decrement would overflow")

  function Refuse(text: Bytes): Reply {
    Error(Ascii("ERR ") + text)
  }

  /** The message the store reports. */
  function Message(e: StoreError): Bytes {
    match e
    case WrongType => WRONGTYPE
    case NotInteger => NOT_INTEGER
    case Overflow => OVERFLOW
  }

  /** WRONGTYPE is a full error code already; the others get the generic one. */
  function StoreErr(e: StoreError): Reply {
    if e == WrongType then Error(Message(e)) else Refuse(Message(e))
  }

  predicate HasWireForm(r: Reply) {
    !r.Unordered? && !r.Info? && (r.Array? ==> forall x | x in r.items :: HasWireForm(x))
  }

  function NullBytes(resp3: bool): Bytes {
    if resp3 then [95, CR, LF] else [DOLLAR, 45, 49, CR, LF]
  }

  /** `Reply::encode`. */
  function Encoded(r: Reply, resp3: bool): Bytes
    requires HasWireForm(r)
  {
    match r
    case Simple(t) => [PLUS] + t + CRLF
    case Error(t) => [MINUS] + t + CRLF
    case Int(n) => [COLON] + DecimalOf(n) + CRLF
    case Bulk(None) => NullBytes(resp3)
    case Bulk(Some(b)) => [DOLLAR] + Digits(|b|) + CRLF + b + CRLF
    case NullArray => if resp3 then [95, CR, LF] else [STAR, 45, 49, CR, LF]
    case Array(xs) => [STAR] + Digits(|xs|) + CRLF + EncodedAll(xs, resp3)
  }

  function EncodedAll(xs: seq<Reply>, resp3: bool): Bytes
    requires forall x | x in xs :: HasWireForm(x)
  {
    if xs == [] then [] else Encoded(xs[0], resp3) + EncodedAll(xs[1..], resp3)
  }

  // ---------- the direct writers of the fast path ----------

  method WriteBulk(out: Bytes, data: Bytes, resp3: bool) returns (r: Bytes)
    requires |data| < U64_LIMIT
    ensures r == out + Encoded(Bulk(Some(data)), resp3)
  {
    r := out + [DOLLAR];
    r := WriteUint(r, |data|);
    r := r + CRLF;
    r := r + data;
    r := r + CRLF;
    assert r == out + Encoded(Bulk(Some(data)), resp3);
  }

  /** Negative numbers are written through their unsigned magnitude, so the minimum is safe. */
  method WriteInt(out: Bytes, n: int, resp3: bool) returns (r: Bytes)
    requires IsI64(n)
    ensures r == out + Encoded(Int(n), resp3)
  {
    r := out + [COLON];
    if n < 0 {
      r := r + [MINUS];
      r := WriteUint(r, -n);
    } else {
      r := WriteUint(r, n);
    }
    r := r + CRLF;
    assert r == out + Encoded(Int(n), resp3);
  }

  method WriteNull(out: Bytes, resp3: bool) returns (r: Bytes)
    ensures r == out + Encoded(Bulk(None), resp3)
  {
    r := out + if resp3 then [95, CR, LF] else [DOLLAR, 45, 49, CR, LF];
  }

  method WriteSimple(out: Bytes, text: Bytes, resp3: bool) returns (r: Bytes)
    ensures r == out + Encoded(Simple(text), resp3)
  {
    r := out + [PLUS];
    r := r + text;
    r := r + CRLF;
    assert r == out + Encoded(Simple(text), resp3);
  }

  method WriteError(out: Bytes, text: Bytes, resp3: bool) returns (r: Bytes)
    ensures r == out + Encoded(Error(text), resp3)
  {
    r := out + [MINUS];
    r := r + text;
    r := r + CRLF;
    assert r == out + Encoded(Error(text), resp3);
  }
}
