// The length of a text in UTF-8.
module Utf8Length {
  // How many code points fit into n bytes: 7 bits in one, and 5n + 1 in more.
  function Room(n: nat): nat {
    if n == 0 then 0 else if n == 1 then 128 else if n == 2 then 16 * 128 else 32 * Room(n - 1)
  }

  // A character takes as few bytes as it fits in.
  function CharBytes(c: char): (n: nat)
    ensures 1 <= n <= 4 && Room(n - 1) <= c as int < Room(n)
  {
    var code := c as int;
    if code < 0x80 then 1 else if code < 0x800 then 2 else if code < 0x10000 then 3 else 4
  }

  function ByteLen(s: string): nat {
    if s == "" then 0 else CharBytes(s[0]) + ByteLen(s[1..])
  }

  lemma {:induction false} ByteLenConcat(a: string, b: string)
    ensures ByteLen(a + b) == ByteLen(a) + ByteLen(b)
  {
    if a == "" {
      assert a + b == b;
    } else {
      assert (a + b)[1..] == a[1..] + b;
      ByteLenConcat(a[1..], b);
    }
  }
}
