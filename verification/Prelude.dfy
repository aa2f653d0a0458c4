/** Result shapes and text helpers shared by the modules. */
module Prelude {

  datatype Option<+T> = None | Some(value: T)

  /** A fallible call: the error message itself is never inspected by the code modelled here. */
  datatype Result<+T> = Ok(value: T) | Err

  lemma AppendAssoc<T>(a: seq<T>, b: seq<T>, c: seq<T>)
    ensures a + (b + c) == (a + b) + c
  {
  }

  function Flat(ts: seq<string>): (r: string) {
    if ts == [] then "" else ts[0] + Flat(ts[1..])
  }

  /** The length of a string in UTF-8 bytes, which is what the engine's limits count. */
  function Utf8Length(s: string): (n: nat) {
    if s == "" then 0
    else
      var c := s[0] as int;
      (if c < 0x80 then 1 else if c < 0x800 then 2 else if c < 0x10000 then 3 else 4) + Utf8Length(s[1..])
  }

  /** Rust's `char::is_control`. */
  predicate IsControl(c: char) {
    (c as int) < 0x20 || 0x7F <= (c as int) < 0xA0
  }
}
