/**
 * The minimal markdown rendering of a `.md` instructions file: blank-line separated
 * paragraphs become `<p>` elements and single newlines inside them become `<br>`.
 */
module Instructions {

  /** `pieces.join(sep)`. */
  function JoinWith<T>(pieces: seq<seq<T>>, sep: seq<T>): seq<T> {
    if |pieces| == 0 then []
    else if |pieces| == 1 then pieces[0]
    else pieces[0] + sep + JoinWith(pieces[1..], sep)
  }

  /** `pieces.join("\n\n")`. */
  function JoinParagraphs(pieces: seq<string>): string {
    JoinWith(pieces, "\n\n")
  }

  /** `s.split("\n\n")`, taking the leftmost separator first. */
  function SplitParagraphs(s: string): (r: seq<string>)
    ensures |r| >= 1
  {
    if |s| < 2 then [s]
    else if s[0] == '\n' && s[1] == '\n' then [""] + SplitParagraphs(s[2..])
    else
      var rest := SplitParagraphs(s[1..]);
      [[s[0]] + rest[0]] + rest[1..]
  }

  /** Joining the paragraphs again gives the text back. */
  lemma {:induction false} SplitParagraphsJoin(s: string)
    ensures JoinParagraphs(SplitParagraphs(s)) == s
  {
    if |s| < 2 {
    } else if s[0] == '\n' && s[1] == '\n' {
      SplitParagraphsJoin(s[2..]);
      JoinEmptyFirst(SplitParagraphs(s[2..]), "\n\n");
      assert "\n\n" + s[2..] == s;
    } else {
      SplitParagraphsJoin(s[1..]);
      JoinExtendFirst(s[0], SplitParagraphs(s[1..]), "\n\n");
      assert [s[0]] + s[1..] == s;
    }
  }

  lemma JoinEmptyFirst<T>(rest: seq<seq<T>>, sep: seq<T>)
    requires |rest| >= 1
    ensures JoinWith([[]] + rest, sep) == sep + JoinWith(rest, sep)
  {
    assert ([[]] + rest)[1..] == rest;
  }

  lemma JoinExtendFirst<T>(x: T, rest: seq<seq<T>>, sep: seq<T>)
    requires |rest| >= 1
    ensures JoinWith([[x] + rest[0]] + rest[1..], sep) == [x] + JoinWith(rest, sep)
  {
    var r := [[x] + rest[0]] + rest[1..];
    assert r[1..] == rest[1..];
  }

  /** No two newlines in a row. */
  predicate NoBlankLine(p: string) {
    forall k :: 0 <= k < |p| - 1 ==> !(p[k] == '\n' && p[k + 1] == '\n')
  }

  predicate EndsWithNewline(p: string) {
    |p| > 0 && p[|p| - 1] == '\n'
  }

  /** The first paragraph is a prefix of the text and, when more follow, the separator comes right after it. */
  lemma {:induction false} SplitParagraphsHead(s: string)
    ensures var r := SplitParagraphs(s);
      && |r[0]| <= |s| && r[0] == s[..|r[0]|]
      && (|r| > 1 ==> |s| >= |r[0]| + 2 && s[|r[0]|] == '\n' && s[|r[0]| + 1] == '\n')
  {
    if |s| >= 2 && !(s[0] == '\n' && s[1] == '\n') {
      SplitParagraphsHead(s[1..]);
    }
  }

  /** The split is the leftmost one: no paragraph holds a blank line, and no paragraph but the
      last ends with a newline (else the separator would have matched one character earlier). */
  predicate LeftmostPieces(r: seq<string>) {
    && (forall i :: 0 <= i < |r| ==> NoBlankLine(r[i]))
    && (forall i :: 0 <= i < |r| - 1 ==> !EndsWithNewline(r[i]))
  }

  lemma LeftmostCons(first: string, rest: seq<string>)
    requires |rest| >= 1 && NoBlankLine(first) && !EndsWithNewline(first) && LeftmostPieces(rest)
    ensures LeftmostPieces([first] + rest)
  {
    var r := [first] + rest;
    assert forall i :: 1 <= i < |r| ==> r[i] == rest[i - 1];
  }

  lemma LeftmostExtend(first: string, rest: seq<string>)
    requires |rest| >= 1 && NoBlankLine(first) && (|rest| > 1 ==> !EndsWithNewline(first)) && LeftmostPieces(rest)
    ensures LeftmostPieces([first] + rest[1..])
  {
    var r := [first] + rest[1..];
    assert forall i :: 1 <= i < |r| ==> r[i] == rest[i];
  }

  /** `SplitParagraphs` cuts at the leftmost separators. With `SplitParagraphsJoin` this pins it
      down to `split("\n\n")`: the pieces join back to the text and none could have been cut earlier. */
  lemma {:induction false} SplitParagraphsPieces(s: string)
    ensures LeftmostPieces(SplitParagraphs(s))
  {
    if |s| >= 2 {
      if s[0] == '\n' && s[1] == '\n' {
        SplitParagraphsPieces(s[2..]);
        LeftmostCons("", SplitParagraphs(s[2..]));
      } else {
        SplitParagraphsPieces(s[1..]);
        SplitParagraphsHead(s[1..]);
        var rest := SplitParagraphs(s[1..]);
        var first := [s[0]] + rest[0];
        assert NoBlankLine(first) by {
          forall k | 0 <= k < |first| - 1 ensures !(first[k] == '\n' && first[k + 1] == '\n') {
            if k > 0 {
              assert first[k] == rest[0][k - 1] && first[k + 1] == rest[0][k];
            } else {
              assert first[1] == s[1];
            }
          }
        }
        if |rest| > 1 {
          if |rest[0]| == 0 {
            assert s[1] == '\n' && s[2] == '\n';
          } else {
            assert first[|first| - 1] == rest[0][|rest[0]| - 1];
          }
        }
        LeftmostExtend(first, rest);
      }
    }
  }

  /** A text without a blank line is one paragraph. */
  lemma {:induction false} SplitWithoutBlankLine(s: string)
    requires forall k :: 0 <= k < |s| - 1 ==> !(s[k] == '\n' && s[k + 1] == '\n')
    ensures SplitParagraphs(s) == [s]
  {
    if |s| >= 2 {
      assert !(s[0] == '\n' && s[1] == '\n');
      SplitWithoutBlankLine(s[1..]);
      assert [s[0]] + s[1..] == s;
    }
  }

  /** `p.replace(/\n/g, '<br>')`. */
  function LineBreaks(p: string): (r: string)
    ensures '\n' !in r
    ensures '\n' !in p ==> r == p
  {
    if |p| == 0 then ""
    else (if p[0] == '\n' then "<br>" else [p[0]]) + LineBreaks(p[1..])
  }

  /** The HTML of each paragraph, concatenated. */
  function Paragraphs(pieces: seq<string>): (r: string)
    ensures '\n' !in r
  {
    if |pieces| == 0 then "" else "<p>" + LineBreaks(pieces[0]) + "</p>" + Paragraphs(pieces[1..])
  }

  /** The rendered instructions. */
  function MarkdownToHtml(payload: string): string {
    Paragraphs(SplitParagraphs(payload))
  }

  /** The rendering holds no newline and always opens a paragraph; a payload without a
      newline becomes exactly one paragraph around it. */
  lemma MarkdownToHtmlSpec(payload: string)
    ensures var r := MarkdownToHtml(payload);
      && '\n' !in r
      && |r| >= 3 && r[..3] == "<p>"
      && ('\n' !in payload ==> r == "<p>" + payload + "</p>")
  {
    var pieces := SplitParagraphs(payload);
    var r := MarkdownToHtml(payload);
    assert r == "<p>" + LineBreaks(pieces[0]) + "</p>" + Paragraphs(pieces[1..]);
    if '\n' !in payload {
      SplitWithoutBlankLine(payload);
    }
  }
}
