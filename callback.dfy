/**
 * The payload of the "bought" buttons under the purchase list: `show_list`
 * tags the button of entry `i` with `f"remove_{i}"`, and `button_handler`
 * reads it back with `data.startswith("remove_")` and
 * `int(data.split("_")[1])`.
 */
module Callback {
  import opened Wrappers
  import opened PyText

  const Prefix: string := "remove_"

  /** `data.startswith(prefix)`: `data` is `prefix` followed by the rest of it. */
  function StartsWith(data: string, prefix: string): (b: bool)
    ensures b <==> |prefix| <= |data| && data == prefix + data[|prefix|..]
  {
    |prefix| <= |data| && data[..|prefix|] == prefix
  }

  /** What a button payload asks for. */
  datatype Action =
    | Ignore              // not a "remove_" payload: the handler does nothing
    | Malformed           // `int(...)` raised: the handler reports a failure
    | Remove(index: int)  // remove the entry at this (possibly negative) index

  /** `button_handler`'s reading of a payload. */
  function Decode(data: string): (a: Action)
    ensures a.Ignore? <==> !StartsWith(data, Prefix)
  {
    if !StartsWith(data, Prefix) then Ignore
    else
      assert data[6] == '_';
      var parts := Split(data, '_');
      match ParseInt(parts[1])
      case None => Malformed
      case Some(i) => Remove(i)
  }

  /** A payload with the prefix is read from the text between the first and the next `_`. */
  lemma DecodeField(rest: string)
    ensures Decode(Prefix + rest) == match ParseInt(Split(rest, '_')[0])
                                     case None => Malformed
                                     case Some(i) => Remove(i)
  {
    var data := Prefix + rest;
    assert data[..|Prefix|] == Prefix;
    assert data == "remove" + ['_'] + rest;
    SplitAtFirstSep("remove", '_', rest);
  }

  /**
   * `f"remove_{i}"` for a position `i` produced by `enumerate`: the payload
   * `button_handler` reads back as a request to remove entry `i`.
   */
  function Encode(i: nat): (data: string)
    ensures Decode(data) == Remove(i)
  {
    var digits := NatToString(i);
    DecodeField(digits);
    SplitWithoutSep(digits, '_');
    ParseIntOfNat(i);
    Prefix + digits
  }

  /** Distinct positions get distinct payloads. */
  lemma EncodeInjective(i: nat, j: nat)
    requires Encode(i) == Encode(j)
    ensures i == j
  {
  }

  /** `int("")` raises: the bare prefix is a malformed payload. */
  lemma DecodeBarePrefix()
    ensures Decode(Prefix) == Malformed
  {
    assert Prefix == Prefix + "";
    DecodeField("");
    ParseIntOfBlank("");
  }

  /** Only the first field after the prefix is read: `remove_2_x` removes entry 2. */
  lemma DecodeIgnoresLaterFields(i: nat, tail: string)
    ensures Decode(Prefix + NatToString(i) + "_" + tail) == Remove(i)
  {
    var digits := NatToString(i);
    assert Prefix + digits + "_" + tail == Prefix + (digits + ['_'] + tail);
    DecodeField(digits + ['_'] + tail);
    SplitAtFirstSep(digits, '_', tail);
    ParseIntOfNat(i);
  }

  /**
   * `remove_-n` decodes to the index `-n`: negative for `n >= 1`, so the
   * range check rejects it, but `remove_-0` decodes to `Remove(0)`.
   */
  lemma DecodeNegative(n: nat)
    ensures Decode(Prefix + "-" + NatToString(n)) == Remove(-(n as int))
  {
    var field := "-" + NatToString(n);
    assert Prefix + "-" + NatToString(n) == Prefix + field;
    DecodeField(field);
    SplitWithoutSep(field, '_');
    ParseIntOfNegated(n);
  }
}
