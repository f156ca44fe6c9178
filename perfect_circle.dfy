/** scripts/perfect-circle.js: renders the logo into a 96-pixel circle and
    derives the dark-theme copy by inverting the colour of every pixel that
    is not fully transparent. The image decoding, the SVG clip and the PNG
    encoding are done by an image library and are not part of this model. */
module PerfectCircle {
  import opened Pixels

  const LogoSize: nat := 96

  /** `255 - c` on each colour channel. */
  function Invert(p: Rgb): (q: Rgb)
    ensures q.r + p.r == 255 && q.g + p.g == 255 && q.b + p.b == 255
  {
    Rgb(255 - p.r, 255 - p.g, 255 - p.b)
  }

  /** The dark logo: every opaque pixel inverted, alpha kept. */
  function DarkLogo(s: seq<byte>): seq<byte> {
    Recoloured(s, Invert)
  }

  /** Inverting the dark logo gives back the original buffer. */
  lemma DarkLogoInvolution(s: seq<byte>)
    ensures DarkLogo(DarkLogo(s)) == s
  {
    var id := (p: Rgb) => p;
    RecolourTwice(s, Invert, Invert, id);
    RecolourIdentity(s, id);
  }

  /** The inversion loop run on the decoded buffer. */
  method InvertOpaquePixels(data: array<byte>)
    modifies data
    ensures data[..] == DarkLogo(old(data[..]))
  {
    RecolourOpaque(data, Invert);
  }
}
