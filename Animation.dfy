/**
  Cycling through the animation clips (animation stacks) of the scene: the
  current clip index starts at 0 and each right click advances it by one,
  modulo the number of clips.
 */
module Animation {

  /** The largest value of the source's `int`. */
  const IntMax: int := 0x7fff_ffff

  /** An animation clip, with the local start and stop of its time span in seconds. */
  datatype AnimStack = AnimStack(name: string, localStart: real, localStop: real)

  /** The clip index after one right click: `(current + 1) % count`. For a
      current index within range, the addition cannot overflow the source's
      `int`, and both operands are non-negative, so the source's truncating `%`
      agrees with Dafny's. */
  function NextClip(current: int, count: int): (r: int)
    requires 0 <= current < count <= IntMax
    ensures 0 <= r < count
    ensures current + 1 < count ==> r == current + 1
    ensures current + 1 == count ==> r == 0
  {
    (current + 1) % count
  }

  /** The clip index after `clicks` right clicks, starting from clip 0. */
  function ClipAfter(clicks: nat, count: int): (r: int)
    requires 0 < count <= IntMax
    ensures 0 <= r < count
  {
    if clicks == 0 then 0 else NextClip(ClipAfter(clicks - 1, count), count)
  }

  /** After `clicks` right clicks from clip 0 the current clip is `clicks % count`;
      in particular `count` clicks bring it back to 0. */
  lemma {:induction false} ClipAfterIsModulo(clicks: nat, count: int)
    requires 0 < count <= IntMax
    ensures ClipAfter(clicks, count) == clicks % count
  {
    if clicks > 0 {
      ClipAfterIsModulo(clicks - 1, count);
      var q := (clicks - 1) / count;
      var r := (clicks - 1) % count;
      if r + 1 < count {
        ModOfQuotientForm(clicks, count, q, r + 1);
      } else {
        ModOfQuotientForm(clicks, count, q + 1, 0);
      }
    }
  }

  /** `a % n` is the remainder of any quotient-remainder form of `a`. */
  lemma ModOfQuotientForm(a: int, n: int, q: int, r: int)
    requires 0 < n && 0 <= r < n && a == q * n + r
    ensures a % n == r
  {
    var d := q - a / n;
    assert d * n == a % n - r;
  }
}
