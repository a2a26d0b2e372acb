/**
 * The prelude's `Uid`: a 128-bit identifier shown and parsed as base62
 * text, where the value 0 stands for "no id".
 */
module Uids {
  import opened Wrappers
  import Base62

  datatype Uid = Uid(value: Base62.U128)

  datatype UidParseError = MalformedInput | ValueIsEmpty

  /** Why `Deserialize` refuses a string. */
  datatype DeserializeError = MalformedValue

  /** `is_empty`: the reserved value 0. */
  predicate IsEmpty(u: Uid) {
    u.value == 0
  }

  /** `Display` (and `Serialize`): the base62 digits of the value. */
  function ToString(u: Uid): string {
    Base62.Encoded(u.value)
  }

  /** `from_str`: decoding to 0 is ValueIsEmpty, a failed decoding MalformedInput. */
  function FromStr(s: string): (r: Result<Uid, UidParseError>)
    ensures r.Ok? ==> !IsEmpty(r.value) && Base62.Decoded(s) == Some(r.value.value)
    ensures r == Err(ValueIsEmpty) <==> Base62.Decoded(s) == Some(0)
    ensures r == Err(MalformedInput) <==> Base62.Decoded(s).None?
  {
    match Base62.Decoded(s)
    case Some(0) => Err(ValueIsEmpty)
    case Some(value) => Ok(Uid(value))
    case None => Err(MalformedInput)
  }

  /** `Deserialize`: like `from_str`, but the value 0 is accepted. */
  function Deserialize(s: string): (r: Result<Uid, DeserializeError>)
    ensures r.Ok? <==> Base62.Decoded(s).Some?
    ensures r.Ok? ==> Base62.Decoded(s) == Some(r.value.value)
  {
    match Base62.Decoded(s)
    case Some(value) => Ok(Uid(value))
    case None => Err(MalformedValue)
  }

  /** Parsing the displayed form of a non-empty id gives the id back. */
  lemma ParseDisplay(u: Uid)
    requires !IsEmpty(u)
    ensures FromStr(ToString(u)) == Ok(u)
  {
    Base62.DecodeEncode(u.value);
  }

  /** The empty id is displayed, but `from_str` refuses it while `Deserialize` accepts it. */
  lemma EmptyIdParsing()
    ensures ToString(Uid(0)) == ""
    ensures FromStr(ToString(Uid(0))) == Err(ValueIsEmpty)
    ensures Deserialize(ToString(Uid(0))) == Ok(Uid(0))
  {
    Base62.DecodeEncode(0);
  }

  /** Every serialized id deserializes to itself. */
  lemma DeserializeSerialize(u: Uid)
    ensures Deserialize(ToString(u)) == Ok(u)
  {
    Base62.DecodeEncode(u.value);
  }

  /** A character outside the base62 alphabet makes `from_str` fail with MalformedInput. */
  lemma ParseForeign(s: string, i: nat)
    requires i < |s| && s[i] !in Base62.Alphabet
    ensures FromStr(s) == Err(MalformedInput)
  {
    Base62.DecodeRejectsForeign(s, i);
  }
}
