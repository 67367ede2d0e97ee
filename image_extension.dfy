/**
 * `isImageExtension` (src/utils/isImageExtension.ts): does a file name end in
 * one of the nine image extensions, compared without regard to case? The
 * extension is the text after the last '.', or the whole name when it has no
 * dot at all.
 */
module ImageExtension {
  import opened Strings

  const ImageExtensions: seq<string> := ["jpg", "jpeg", "png", "gif", "bmp", "tiff", "webp", "svg", "ico"]

  /**
   * `name.split('.').at(-1)` is never missing (splitting yields at least one
   * piece), so the guard only rejects the empty extension. That guard is
   * subsumed by the membership test, since the empty string is not listed.
   */
  function IsImageExtension(name: string): (r: bool)
    ensures r <==> Lower(AfterLastDot(name)) in ImageExtensions
    ensures r ==> AfterLastDot(name) != [] && EndsWith(name, AfterLastDot(name))
  {
    var extension := AfterLastDot(name);
    if extension == [] then false
    else Lower(extension) in ImageExtensions
  }

  /** A name without a dot is its own extension. */
  lemma {:induction false} AfterLastDotNoDot(s: string)
    requires forall i :: 0 <= i < |s| ==> s[i] != '.'
    ensures AfterLastDot(s) == s
  {
    if s != [] {
      AfterLastDotNoDot(s[..|s| - 1]);
    }
  }

  /** The extension is everything after the last dot, whatever precedes that dot. */
  lemma {:induction false} AfterLastDotSplit(p: string, e: string)
    requires forall i :: 0 <= i < |e| ==> e[i] != '.'
    ensures AfterLastDot(p + "." + e) == e
    decreases |e|
  {
    var s := p + "." + e;
    if e == [] {
      assert s[|s| - 1] == '.';
    } else {
      assert s[..|s| - 1] == p + "." + e[..|e| - 1];
      AfterLastDotSplit(p, e[..|e| - 1]);
      assert e == e[..|e| - 1] + [e[|e| - 1]];
    }
  }

  /** Two names that lowercase alike have extensions that lowercase alike. */
  lemma {:induction false} AfterLastDotLower(s: string, t: string)
    requires Lower(s) == Lower(t)
    ensures Lower(AfterLastDot(s)) == Lower(AfterLastDot(t))
    decreases |s|
  {
    assert |s| == |Lower(s)| == |t|;
    if s != [] {
      var n := |s| - 1;
      LowerOfDot(s, n);
      LowerOfDot(t, n);
      assert Lower(s)[n] == Lower(t)[n];
      if s[n] != '.' {
        LowerPrefix(s, n);
        LowerPrefix(t, n);
        AfterLastDotLower(s[..n], t[..n]);
        LowerAppend(AfterLastDot(s[..n]), s[n]);
        LowerAppend(AfterLastDot(t[..n]), t[n]);
      }
    }
  }

  /** Only the text after the last dot decides: `x.tar.png` is an image, `x.png.txt` is not. */
  lemma LastDotDecides(p: string, e: string)
    requires forall i :: 0 <= i < |e| ==> e[i] != '.'
    ensures IsImageExtension(p + "." + e) == IsImageExtension(e)
  {
    AfterLastDotSplit(p, e);
    AfterLastDotNoDot(e);
  }

  /** A name without any dot is tested as a whole, so `png` on its own counts as an image. */
  lemma WholeNameWithoutDot(name: string)
    requires forall i :: 0 <= i < |name| ==> name[i] != '.'
    ensures IsImageExtension(name) <==> Lower(name) in ImageExtensions
  {
    AfterLastDotNoDot(name);
  }

  /** The test ignores case: names that lowercase alike are judged alike (`A.PNG` as `a.png`). */
  lemma CaseInsensitive(s: string, t: string)
    requires Lower(s) == Lower(t)
    ensures IsImageExtension(s) == IsImageExtension(t)
  {
    AfterLastDotLower(s, t);
  }

  /** An empty name, or one that ends in a dot, has an empty extension and is never an image. */
  lemma EmptyExtension(name: string)
    requires name == [] || name[|name| - 1] == '.'
    ensures !IsImageExtension(name)
  {
  }
}
