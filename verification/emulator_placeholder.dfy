/** What removing the kitty placeholder from the bytes of a call leaves (internal/capture/emulator.go). */
module EmulatorPlaceholder {
  import opened Common
  import opened MarkerSearch
  import opened EmulatorWrite
  import opened EmulatorStream

  /** The placeholder is U+10EEEE in UTF-8. */
  lemma PlaceholderIs()
    ensures PLACEHOLDER == [0xf4, 0x8e, 0xbb, 0xae]
    ensures 0x10eeee == (0xf4 % 8 * 64 * 64 * 64) + (0x8e % 64 * 64 * 64) + (0xbb % 64 * 64) + 0xae % 64
  {
  }

  lemma NotAtStart(p: seq<byte>)
    requires |p| >= 4 && !OccursAt(p, PLACEHOLDER, 0)
    ensures p[..4] != PLACEHOLDER
  {
    assert p[0..0 + 4] == p[..4];
  }

  lemma StripByte(x: byte, p: seq<byte>)
    requires |p| < 3 || !OccursAt([x] + p, PLACEHOLDER, 0)
    ensures StripPlaceholder([x] + p) == if |p| < 3 then [x] + p else [x] + StripPlaceholder(p)
  {
    if |p| >= 3 {
      NotAtStart([x] + p);
    }
  }

  lemma StripShort(p: seq<byte>)
    requires |p| < 4
    ensures StripPlaceholder(p) == p
  {
  }

  lemma StripPlaceholderOff(b: seq<byte>)
    ensures StripPlaceholder(PLACEHOLDER + b) == StripPlaceholder(b)
  {
    assert (PLACEHOLDER + b)[..4] == PLACEHOLDER && (PLACEHOLDER + b)[4..] == b;
  }

  lemma OccursLater(x: byte, p: seq<byte>)
    requires !Occurs([x] + p, PLACEHOLDER)
    ensures !Occurs(p, PLACEHOLDER) && !OccursAt([x] + p, PLACEHOLDER, 0)
  {
    hide OccursAt;
    OccursInBounds(PLACEHOLDER);
    forall i: nat
      ensures !OccursAt(p, PLACEHOLDER, i)
    {
      OccursBehind([x], p, PLACEHOLDER, i);
    }
  }

  /** Bytes without a placeholder are left as they are. */
  lemma {:induction false} StripNone(p: seq<byte>)
    requires !Occurs(p, PLACEHOLDER)
    ensures StripPlaceholder(p) == p
    decreases |p|
  {
    hide StripPlaceholder, Occurs, OccursAt;
    if |p| < 4 {
      StripShort(p);
    } else {
      assert p == [p[0]] + p[1..];
      OccursLater(p[0], p[1..]);
      StripByte(p[0], p[1..]);
      StripNone(p[1..]);
    }
  }

  /** The first placeholder goes, what is before it stays, and what is after it is stripped in its turn. */
  lemma {:induction false} StripFirst(a: seq<byte>, b: seq<byte>)
    requires forall i :: 0 <= i < |a| ==> !OccursAt(a + PLACEHOLDER + b, PLACEHOLDER, i)
    ensures StripPlaceholder(a + PLACEHOLDER + b) == a + StripPlaceholder(b)
    decreases |a|
  {
    hide StripPlaceholder, OccursAt;
    if a == [] {
      assert a + PLACEHOLDER + b == PLACEHOLDER + b;
      StripPlaceholderOff(b);
    } else {
      var (x, rest) := (a[0], a[1..] + PLACEHOLDER + b);
      assert a + PLACEHOLDER + b == [x] + rest;
      forall i | 0 <= i < |a| - 1
        ensures !OccursAt(rest, PLACEHOLDER, i)
      {
        OccursBehind([x], rest, PLACEHOLDER, i);
      }
      StripByte(x, rest);
      StripFirst(a[1..], b);
      assert [x] + (a[1..] + StripPlaceholder(b)) == a + StripPlaceholder(b);
    }
  }

  /** Calls without a placeholder: the stream is the bytes given. */
  lemma {:induction false} StripAllIsConcat(ps: seq<seq<byte>>)
    requires forall p :: p in ps ==> !Occurs(p, PLACEHOLDER)
    ensures StripAll(ps) == Concat(ps)
  {
    if ps != [] {
      hide StripPlaceholder, Occurs;
      StripAllIsConcat(ps[..|ps| - 1]);
      StripNone(ps[|ps| - 1]);
    }
  }
}
