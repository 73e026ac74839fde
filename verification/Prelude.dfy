/** Shared vocabulary: optional values, results and the fixed-width integers of the source. */
module Prelude {

  datatype Option<+T> = None | Some(value: T)

  datatype Result<+T> = Ok(value: T) | Err(error: Error)

  /** Only the text of a Go error matters to the code that handles it. */
  type Error = string

  /** What an update module answers to Update, Apply or Revert. */
  datatype CallResult = Done | RebootRequired | Failed(error: Error)

  type u8 = x: int | 0 <= x < 0x100
  type u16 = x: int | 0 <= x < 0x1_0000
  type u32 = x: int | 0 <= x < 0x1_0000_0000
  type u64 = x: int | 0 <= x < 0x1_0000_0000_0000_0000

  /** Inserting an element anywhere adds just that element. */
  lemma InsertCount<T>(s: seq<T>, i: nat, x: T)
    requires i <= |s|
    ensures multiset(s[..i] + [x] + s[i..]) == multiset(s) + multiset{x}
  {
    assert s == s[..i] + s[i..];
  }
}
