/** The raw RGBA buffers the logo scripts rewrite in place: four bytes per
    pixel (red, green, blue, alpha), scanned from the start in steps of
    four. A pixel is recoloured only when its alpha byte exists and is
    non-zero; a trailing partial pixel has no alpha byte (reading it gives
    `undefined`, which is not `> 0`) and is left alone. */
module Pixels {
  type byte = x: int | 0 <= x < 256

  datatype Rgb = Rgb(r: byte, g: byte, b: byte)

  /** Channel `c` (0 red, 1 green, 2 blue) of a colour. */
  function Channel(p: Rgb, c: nat): byte
    requires c < 3
  {
    if c == 0 then p.r else if c == 1 then p.g else p.b
  }

  /** The pixel starting at `base` has an alpha byte and it is not zero. */
  predicate OpaqueAt(s: seq<byte>, base: nat) {
    base + 3 < |s| && s[base + 3] > 0
  }

  /** The colour of the pixel starting at `base`. */
  function ColourAt(s: seq<byte>, base: nat): Rgb
    requires base + 2 < |s|
  {
    Rgb(s[base], s[base + 1], s[base + 2])
  }

  /** Byte `k` after recolouring with `f`: a colour byte of an opaque whole
      pixel takes the matching channel of `f` of that pixel's colour; alpha
      bytes, transparent pixels and a trailing partial pixel keep theirs. */
  function RecolouredAt(s: seq<byte>, f: Rgb -> Rgb, k: nat): byte
    requires k < |s|
  {
    var base := k - k % 4;
    if k % 4 < 3 && OpaqueAt(s, base) then Channel(f(ColourAt(s, base)), k % 4) else s[k]
  }

  /** The whole buffer after recolouring every opaque pixel with `f`. */
  function Recoloured(s: seq<byte>, f: Rgb -> Rgb): (r: seq<byte>)
    ensures |r| == |s|
    ensures forall k :: 0 <= k < |s| ==> r[k] == RecolouredAt(s, f, k)
  {
    seq(|s|, k requires 0 <= k < |s| => RecolouredAt(s, f, k))
  }

  /** Recolouring never touches alpha, so the same pixels stay opaque; it
      leaves transparent pixels and a trailing partial pixel as they were. */
  lemma RecolouredKeeps(s: seq<byte>, f: Rgb -> Rgb, k: nat)
    requires k < |s|
    ensures k % 4 == 3 ==> Recoloured(s, f)[k] == s[k]
    ensures !OpaqueAt(s, k - k % 4) ==> Recoloured(s, f)[k] == s[k]
    ensures OpaqueAt(Recoloured(s, f), k - k % 4) <==> OpaqueAt(s, k - k % 4)
  {
    var base := k - k % 4;
    if base + 3 < |s| {
      assert (base + 3) % 4 == 3;
      assert (base + 3) - (base + 3) % 4 == base;
    }
  }

  /** The colour an opaque pixel has after recolouring. */
  lemma RecolouredColour(s: seq<byte>, f: Rgb -> Rgb, base: nat)
    requires base % 4 == 0 && OpaqueAt(s, base)
    ensures ColourAt(Recoloured(s, f), base) == f(ColourAt(s, base))
  {
    var r := Recoloured(s, f);
    assert (base + 1) - (base + 1) % 4 == base;
    assert (base + 2) - (base + 2) % 4 == base;
    assert r[base] == Channel(f(ColourAt(s, base)), 0);
    assert r[base + 1] == Channel(f(ColourAt(s, base)), 1);
    assert r[base + 2] == Channel(f(ColourAt(s, base)), 2);
  }

  /** Recolouring twice is recolouring once with the composition. */
  lemma RecolourTwice(s: seq<byte>, f: Rgb -> Rgb, g: Rgb -> Rgb, h: Rgb -> Rgb)
    requires forall p :: h(p) == g(f(p))
    ensures Recoloured(Recoloured(s, f), g) == Recoloured(s, h)
  {
    forall k | 0 <= k < |s|
      ensures Recoloured(Recoloured(s, f), g)[k] == Recoloured(s, h)[k]
    {
      RecolourTwiceAt(s, f, g, h, k);
    }
  }

  /** One byte of `RecolourTwice`. */
  lemma RecolourTwiceAt(s: seq<byte>, f: Rgb -> Rgb, g: Rgb -> Rgb, h: Rgb -> Rgb, k: nat)
    requires forall p :: h(p) == g(f(p))
    requires k < |s|
    ensures Recoloured(Recoloured(s, f), g)[k] == Recoloured(s, h)[k]
  {
    var base := k - k % 4;
    RecolouredKeeps(s, f, k);
    if k % 4 < 3 && OpaqueAt(s, base) {
      RecolouredColour(s, f, base);
    }
  }

  /** A colour map that changes nothing leaves the buffer as it was. */
  lemma RecolourIdentity(s: seq<byte>, f: Rgb -> Rgb)
    requires forall p :: f(p) == p
    ensures Recoloured(s, f) == s
  {
    forall k | 0 <= k < |s|
      ensures Recoloured(s, f)[k] == s[k]
    {
      var base := k - k % 4;
      if k % 4 < 3 && OpaqueAt(s, base) {
        assert base + k % 4 == k;
      }
    }
  }

  /** The scan `for (i = 0; i < data.length; i += 4)` with the per-pixel
      body `f` applied where the alpha byte is above zero. */
  method RecolourOpaque(a: array<byte>, f: Rgb -> Rgb)
    modifies a
    ensures a[..] == Recoloured(old(a[..]), f)
  {
    ghost var s := a[..];
    var i := 0;
    while i < a.Length
      invariant 0 <= i && i % 4 == 0 && i - 4 < a.Length
      invariant forall k :: 0 <= k < a.Length && k < i ==> a[k] == RecolouredAt(s, f, k)
      invariant forall k :: i <= k < a.Length ==> a[k] == s[k]
    {
      if i + 3 < a.Length && a[i + 3] > 0 {
        var p := f(Rgb(a[i], a[i + 1], a[i + 2]));
        a[i] := p.r;
        a[i + 1] := p.g;
        a[i + 2] := p.b;
        assert (i + 1) - (i + 1) % 4 == i && (i + 2) - (i + 2) % 4 == i && (i + 3) - (i + 3) % 4 == i;
      } else {
        assert forall k :: i <= k < i + 4 ==> k - k % 4 == i;
      }
      i := i + 4;
    }
    assert a[..] == Recoloured(s, f);
  }
}
