/**
 * `make_urls_clickable`: the substitution of the pattern `(https?://[^\s]+)` by
 * `[\1](\1)`, written as a leftmost, non-overlapping scanner over the text.
 */
module Links {
  import opened Text

  /** `s` starts with `http`. */
  predicate HttpAt(s: string) {
    |s| >= 4 && s[0] == 'h' && s[1] == 't' && s[2] == 't' && s[3] == 'p'
  }

  /**
   * The pattern matches at the head of `s`: `http://` or `https://` followed by at least
   * one non-space (the optional `s` is tried first, and only one of the two can fit).
   */
  predicate UrlAt(s: string) {
    HttpAt(s) && |s| > 7
    && ((s[4] == ':' && s[5] == '/' && s[6] == '/' && !IsSpace(s[7]))
        || (|s| > 8 && s[4] == 's' && s[5] == ':' && s[6] == '/' && s[7] == '/' && !IsSpace(s[8])))
  }

  /** No match anywhere in `s`. */
  predicate NoUrl(s: string) {
    forall i :: 0 <= i <= |s| ==> !UrlAt(s[i..])
  }

  /** The length of the run of non-whitespace characters that `s` starts with. */
  function RunLength(s: string): (n: nat)
    ensures n <= |s|
    ensures forall i :: 0 <= i < n ==> !IsSpace(s[i])
    ensures n < |s| ==> IsSpace(s[n])
  {
    if s == [] || IsSpace(s[0]) then 0 else 1 + RunLength(s[1..])
  }

  /** A piece of scanned text: a character kept as it is, or a matched URL. */
  datatype Piece = Plain(c: char) | Url(url: string)

  /** A well-formed match: a scheme, at least one more character, and no whitespace at all. */
  predicate IsUrl(u: string) {
    UrlAt(u) && forall i :: 0 <= i < |u| ==> !IsSpace(u[i])
  }

  /** The markdown link `[u](u)`. */
  function MarkdownLink(u: string): string
  {
    "[" + u + "](" + u + ")"
  }

  /** The original text the pieces were scanned from. */
  function Flatten(ps: seq<Piece>): string
  {
    if ps == [] then [] else PieceText(ps[0]) + Flatten(ps[1..])
  }

  /** The text a piece was scanned from. */
  function PieceText(p: Piece): string
  {
    match p
    case Plain(c) => [c]
    case Url(u) => u
  }

  lemma FlattenCons(p: Piece, ps: seq<Piece>)
    ensures Flatten([p] + ps) == PieceText(p) + Flatten(ps)
  {
    assert ([p] + ps)[1..] == ps;
  }

  /** The text with every URL piece replaced by its markdown link. */
  function Render(ps: seq<Piece>): string
  {
    if ps == [] then []
    else (match ps[0] case Plain(c) => [c] case Url(u) => MarkdownLink(u)) + Render(ps[1..])
  }

  /**
   * The scanner: at each position either the pattern matches, and the greedy `[^\s]+`
   * takes the whole non-space run, or the character is kept and the scan moves on.
   */
  function Scan(s: string): seq<Piece>
    decreases |s|
  {
    if s == [] then []
    else if UrlAt(s) then
      var n := RunLength(s);
      assert n >= 8;
      [Url(s[..n])] + Scan(s[n..])
    else [Plain(s[0])] + Scan(s[1..])
  }

  /** The scan loses nothing: its pieces spell out the text. */
  lemma {:induction false} ScanFlatten(s: string)
    ensures Flatten(Scan(s)) == s
    decreases |s|
  {
    if s != [] {
      if UrlAt(s) {
        var n := RunLength(s);
        ScanFlatten(s[n..]);
        FlattenCons(Url(s[..n]), Scan(s[n..]));
        assert s[..n] + s[n..] == s;
      } else {
        ScanFlatten(s[1..]);
        FlattenCons(Plain(s[0]), Scan(s[1..]));
        assert [s[0]] + s[1..] == s;
      }
    }
  }

  /** Every URL piece the scan produces is a well-formed match. */
  lemma {:induction false} ScanUrls(s: string)
    ensures forall i :: 0 <= i < |Scan(s)| && Scan(s)[i].Url? ==> IsUrl(Scan(s)[i].url)
    decreases |s|
  {
    if s != [] {
      var ps := Scan(s);
      var rest := if UrlAt(s) then s[RunLength(s)..] else s[1..];
      ScanUrls(rest);
      assert ps[1..] == Scan(rest);
      if UrlAt(s) {
        var n := RunLength(s);
        assert IsUrl(ps[0].url);
      }
      forall i | 0 < i < |ps| && ps[i].Url?
        ensures IsUrl(ps[i].url)
      {
        assert ps[i] == Scan(rest)[i - 1];
      }
    }
  }

  /** `make_urls_clickable(text)`. */
  function Linkify(s: string): string
  {
    Render(Scan(s))
  }

  /** The scan is leftmost: no match starts at a character it keeps. */
  lemma {:induction false} ScanLeftmost(s: string)
    ensures forall i :: 0 <= i < |Scan(s)| && Scan(s)[i].Plain? ==> !UrlAt(Flatten(Scan(s)[i..]))
    decreases |s|
  {
    if s != [] {
      var ps := Scan(s);
      var rest := if UrlAt(s) then s[RunLength(s)..] else s[1..];
      ScanLeftmost(rest);
      ScanFlatten(s);
      assert ps[1..] == Scan(rest);
      assert ps[0..] == ps;
      forall i | 0 < i < |ps| && ps[i].Plain?
        ensures !UrlAt(Flatten(ps[i..]))
      {
        assert ps[i..] == Scan(rest)[i - 1..];
      }
    }
  }

  /** The scan is greedy: a URL piece is followed by a whitespace character or by the end of the text. */
  lemma {:induction false} ScanLongest(s: string)
    ensures forall i :: 0 <= i < |Scan(s)| - 1 && Scan(s)[i].Url? ==> Scan(s)[i + 1].Plain? && IsSpace(Scan(s)[i + 1].c)
    decreases |s|
  {
    if s != [] {
      var ps := Scan(s);
      var rest := if UrlAt(s) then s[RunLength(s)..] else s[1..];
      ScanLongest(rest);
      assert ps[1..] == Scan(rest);
      if UrlAt(s) && rest != [] {
        var n := RunLength(s);
        assert rest[0] == s[n] && IsSpace(s[n]);
        assert !UrlAt(rest);
        assert ps[1] == Plain(rest[0]);
      }
      forall i | 0 < i < |ps| - 1 && ps[i].Url?
        ensures ps[i + 1].Plain? && IsSpace(ps[i + 1].c)
      {
        assert ps[i] == Scan(rest)[i - 1] && ps[i + 1] == Scan(rest)[i];
      }
    }
  }

  /** Text without any match is left unchanged. */
  lemma {:induction false} LinkifyNoUrl(s: string)
    requires NoUrl(s)
    ensures Linkify(s) == s
    decreases |s|
  {
    if s != [] {
      assert !UrlAt(s[0..]) && s[0..] == s;
      assert NoUrl(s[1..]) by {
        forall i | 0 <= i <= |s[1..]|
          ensures !UrlAt(s[1..][i..])
        {
          assert s[1..][i..] == s[i + 1..];
        }
      }
      LinkifyNoUrl(s[1..]);
    }
  }

  /** Rendering never shortens the text, and lengthens it when there is a URL piece (`[u](u)` is longer than `u`). */
  lemma {:induction false} RenderLength(ps: seq<Piece>)
    ensures |Render(ps)| >= |Flatten(ps)|
    ensures (exists i :: 0 <= i < |ps| && ps[i].Url?) ==> |Render(ps)| > |Flatten(ps)|
  {
    if ps != [] {
      RenderLength(ps[1..]);
      if exists i :: 0 <= i < |ps| && ps[i].Url? {
        var i :| 0 <= i < |ps| && ps[i].Url?;
        if i > 0 {
          assert ps[1..][i - 1].Url?;
        }
      }
    }
  }

  /** A match anywhere yields at least one URL piece. */
  lemma {:induction false} ScanFindsUrl(s: string, k: nat)
    requires k <= |s| && UrlAt(s[k..])
    ensures exists i :: 0 <= i < |Scan(s)| && Scan(s)[i].Url?
    decreases |s|
  {
    if !UrlAt(s) {
      assert s[0..] == s;
      assert s[1..][k - 1..] == s[k..];
      ScanFindsUrl(s[1..], k - 1);
      var i :| 0 <= i < |Scan(s[1..])| && Scan(s[1..])[i].Url?;
      assert Scan(s)[i + 1].Url?;
    } else {
      assert Scan(s)[0].Url?;
    }
  }

  /** The text is left unchanged exactly when the pattern matches nowhere in it. */
  lemma LinkifyUnchangedIff(s: string)
    ensures Linkify(s) == s <==> NoUrl(s)
  {
    if NoUrl(s) {
      LinkifyNoUrl(s);
    } else {
      var k :| 0 <= k <= |s| && UrlAt(s[k..]);
      ScanFindsUrl(s, k);
      RenderLength(Scan(s));
      ScanFlatten(s);
    }
  }
}
