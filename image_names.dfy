/** File-name tests shared by the image build scripts: a case-insensitive
    extension strip as `name.replace(/\.(a|b)$/i, '')` performs it, and the
    `-<digits>w.` tag that marks an already generated responsive variant. */
module ImageNames {
  import Strings

  /** The first of `exts` that `name` ends with, ignoring case, is removed;
      a name with none of them is returned as it is. Each extension is
      lower case and includes its dot. */
  function StripExtension(name: string, exts: seq<string>): (r: string)
    ensures Strings.StartsWith(name, r)
    ensures (forall i :: 0 <= i < |exts| ==> !Strings.EndsWithIgnoreCase(name, exts[i])) ==> r == name
    ensures forall i :: 0 <= i < |exts| && Strings.EndsWithIgnoreCase(name, exts[i])
                        && (forall j :: 0 <= j < i ==> !Strings.EndsWithIgnoreCase(name, exts[j]))
                        ==> r == name[..|name| - |exts[i]|]
  {
    if exts == [] then name
    else if Strings.EndsWithIgnoreCase(name, exts[0]) then name[..|name| - |exts[0]|]
    else
      var r := StripExtension(name, exts[1..]);
      assert forall i :: 1 <= i < |exts| ==> exts[i] == exts[1..][i - 1];
      r
  }

  /** `/\.(jpg|jpeg)$/i.test(name)`. */
  predicate IsJpegName(name: string) {
    Strings.EndsWithIgnoreCase(name, ".jpg") || Strings.EndsWithIgnoreCase(name, ".jpeg")
  }

  /** `-`, one or more digits, `w` and `.` occupy `s[i..j + 2]`. */
  predicate VariantTagAt(s: string, i: int, j: int) {
    0 <= i && i + 1 < j && j + 1 < |s|
    && s[i] == '-' && s[j] == 'w' && s[j + 1] == '.'
    && forall k :: i < k < j ==> Strings.IsDigit(s[k])
  }

  /** `/-\d+w\./.test(s)`. */
  predicate HasVariantTag(s: string) {
    exists i, j | 0 <= i < j < |s| :: VariantTagAt(s, i, j)
  }

  /** The generated names carry the tag; a name with no `w.` after a digit
      run does not. */
  lemma VariantTagExamples()
    ensures HasVariantTag("art-400w.webp")
    ensures HasVariantTag("art-800w.jpeg")
    ensures !HasVariantTag("art.jpeg")
  {
    assert VariantTagAt("art-400w.webp", 3, 7);
    assert VariantTagAt("art-800w.jpeg", 3, 7);
    forall i, j | 0 <= i < j < |"art.jpeg"|
      ensures !VariantTagAt("art.jpeg", i, j)
    {
    }
  }

  /** Appending `-<w>w.<ext>` to a base name always gives a tagged name. */
  lemma VariantNameIsTagged(base: string, w: nat, ext: string)
    ensures HasVariantTag(base + "-" + Strings.NatToString(w) + "w." + ext)
  {
    var digits := Strings.NatToString(w);
    var s := base + "-" + digits + "w." + ext;
    var i := |base|;
    var j := |base| + 1 + |digits|;
    assert s[i] == '-';
    assert s[j] == 'w' && s[j + 1] == '.';
    forall k | i < k < j
      ensures Strings.IsDigit(s[k])
    {
      assert s[k] == digits[k - i - 1];
    }
    assert VariantTagAt(s, i, j);
  }
}
