/** Numbers below 256 and bytes. */
module Octets {
  /** 1 added up `n` times. */
  function Ones(n: nat): bv8 {
    if n == 0 then 0 else Ones(n - 1) + 1
  }

  lemma OneMore(b: bv8)
    requires b != 255
    ensures (b + 1) as int == b as int + 1
  {
  }

  lemma {:induction false} OnesCount(n: nat)
    requires n < 256
    ensures Ones(n) as int == n
  {
    if n > 0 {
      OnesCount(n - 1);
      OneMore(Ones(n - 1));
    }
  }

  /** A number that fits a byte comes back from it. */
  lemma ByteBack(n: nat)
    requires n < 256
    ensures (n as bv8) as int == n
  {
    OnesCount(n);
    var b := Ones(n);
    assert b as int == n;
    assert b == n as bv8;
  }

  /** Bytes compare as the numbers they hold. */
  lemma ByteOrder(a: nat, b: nat)
    requires a < 256 && b < 256
    ensures (a as bv8) < (b as bv8) <==> a < b
  {
    ByteBack(a);
    ByteBack(b);
    Compare(a as bv8, b as bv8);
  }

  lemma Compare(x: bv8, y: bv8)
    ensures x < y <==> x as int < y as int
  {
  }
}
