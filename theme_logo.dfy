/** scripts/theme-matching-logo.js: two recoloured copies of the logo. The
    dark copy inverts every opaque pixel and then turns the ones that came
    out near black (every channel below 50) into the dark page background
    #2A2622; the light copy turns near-white opaque pixels (every channel
    above 200) into the light page background #F8F8F8. Decoding and PNG
    encoding are done by an image library and are not part of this model. */
module ThemeLogo {
  import opened Pixels
  import PerfectCircle

  const DarkBackground: Rgb := Rgb(42, 38, 34)
  const LightBackground: Rgb := Rgb(248, 248, 248)

  predicate NearBlack(p: Rgb) {
    p.r < 50 && p.g < 50 && p.b < 50
  }

  predicate NearWhite(p: Rgb) {
    p.r > 200 && p.g > 200 && p.b > 200
  }

  /** The dark-theme body: invert, then blend a near-black result into the
      background. */
  function DarkPixel(p: Rgb): (q: Rgb)
    ensures NearBlack(PerfectCircle.Invert(p)) ==> q == DarkBackground
    ensures !NearBlack(PerfectCircle.Invert(p)) ==> q == PerfectCircle.Invert(p)
  {
    var inv := PerfectCircle.Invert(p);
    if NearBlack(inv) then DarkBackground else inv
  }

  /** The light-theme body: a near-white pixel becomes the background. */
  function LightPixel(p: Rgb): (q: Rgb)
    ensures NearWhite(p) ==> q == LightBackground
    ensures !NearWhite(p) ==> q == p
  {
    if NearWhite(p) then LightBackground else p
  }

  function DarkThemed(s: seq<byte>): seq<byte> {
    Recoloured(s, DarkPixel)
  }

  function LightThemed(s: seq<byte>): seq<byte> {
    Recoloured(s, LightPixel)
  }

  /** Every opaque pixel of the dark copy is the plain inversion of the
      original, or the dark background where that inversion is near black;
      pixels that were near white in the original are the ones that blend. */
  lemma DarkThemedPixel(s: seq<byte>, base: nat)
    requires base % 4 == 0 && OpaqueAt(s, base)
    ensures OpaqueAt(DarkThemed(s), base)
    ensures var orig := ColourAt(s, base);
      ColourAt(DarkThemed(s), base)
      == if orig.r > 205 && orig.g > 205 && orig.b > 205 then DarkBackground
         else PerfectCircle.Invert(orig)
  {
    RecolouredColour(s, DarkPixel, base);
    RecolouredKeeps(s, DarkPixel, base + 3);
  }

  /** Outside the blended pixels the dark copy agrees with the plain
      inverted logo of the circle script. */
  lemma DarkThemedAgreesWithInversion(s: seq<byte>, k: nat)
    requires k < |s|
    requires !(OpaqueAt(s, k - k % 4) && NearBlack(PerfectCircle.Invert(ColourAt(s, k - k % 4))))
    ensures DarkThemed(s)[k] == PerfectCircle.DarkLogo(s)[k]
  {
  }

  /** The light background is itself near white, so recolouring the light
      copy again changes nothing. */
  lemma LightThemedIdempotent(s: seq<byte>)
    ensures LightThemed(LightThemed(s)) == LightThemed(s)
  {
    RecolourTwice(s, LightPixel, LightPixel, LightPixel);
  }

  /** No opaque pixel of the light copy keeps a near-white colour other
      than the background. */
  lemma LightThemedPixel(s: seq<byte>, base: nat)
    requires base % 4 == 0 && OpaqueAt(s, base)
    ensures NearWhite(ColourAt(LightThemed(s), base)) ==> ColourAt(LightThemed(s), base) == LightBackground
    ensures !NearWhite(ColourAt(s, base)) ==> ColourAt(LightThemed(s), base) == ColourAt(s, base)
  {
    RecolouredColour(s, LightPixel, base);
  }

  /** The dark-theme loop. */
  method DarkThemeLogo(data: array<byte>)
    modifies data
    ensures data[..] == DarkThemed(old(data[..]))
  {
    RecolourOpaque(data, DarkPixel);
  }

  /** The light-theme loop, run on a separate copy of the decoded buffer. */
  method LightThemeLogo(data: array<byte>)
    modifies data
    ensures data[..] == LightThemed(old(data[..]))
  {
    RecolourOpaque(data, LightPixel);
  }
}
