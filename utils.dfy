/** The line classifier: whole-line comments and inline comments. The parsers do not call it. */
module Utils {
  import opened Text

  /** `is_comment_line`: the stripped line starts with '#'. */
  predicate IsCommentLine(line: string) {
    var s := Strip(line);
    |s| > 0 && s[0] == '#'
  }

  /** `has_inline_comment`: a non-blank line that is not a comment line but holds a '#'. */
  predicate HasInlineComment(line: string) {
    var s := Strip(line);
    if s == [] || s[0] == '#' then false else '#' in s
  }

  /** A comment line is one whose first non-whitespace character is '#'. */
  lemma CommentLineIff(line: string)
    ensures IsCommentLine(line) <==> exists k | 0 <= k < |line| :: line[k] == '#' && AllSpace(line[..k])
  {
    var u := TrimStart(line);
    var t := TrimEnd(u);
    var d := |line| - |u|;
    TrimStartSpec(line);
    TrimEndSpec(u);
    if IsCommentLine(line) {
      assert t == u[..|t|];
      assert line[d] == u[0] == '#';
      assert AllSpace(line[..d]);
    }
    if exists k | 0 <= k < |line| :: line[k] == '#' && AllSpace(line[..k]) {
      var k :| 0 <= k < |line| && line[k] == '#' && AllSpace(line[..k]);
      assert forall m | 0 <= m < d :: IsSpace(line[m]) by {
        assert forall m | 0 <= m < d :: line[..d][m] == line[m];
      }
      assert forall m | 0 <= m < k :: IsSpace(line[m]) by {
        assert forall m | 0 <= m < k :: line[..k][m] == line[m];
      }
      assert d <= k;
      assert u != [] && u[0] == line[d];
      assert d == k;
      assert !IsSpace(u[0]);
      assert !AllSpace(u[|t|..]) ==> t != [];
      assert t[0] == '#';
    }
  }

  /** Blank and whitespace-only lines never carry an inline comment. */
  lemma BlankHasNoInlineComment(line: string)
    requires AllSpace(line)
    ensures !HasInlineComment(line)
  {
    TrimStartAllSpace(line);
  }

  /** No line is both a comment line and a line with an inline comment. */
  lemma NeverBoth(line: string)
    ensures !(IsCommentLine(line) && HasInlineComment(line))
  {
  }

  /** A line has an inline comment exactly when it holds a '#' and is not a comment line. */
  lemma InlineCommentIff(line: string)
    ensures HasInlineComment(line) <==> '#' in line && !IsCommentLine(line)
  {
    var s := Strip(line);
    StripKeepsNonSpace(line, '#');
    assert HasInlineComment(line) == (s != [] && s[0] != '#' && '#' in s);
    assert IsCommentLine(line) == (|s| > 0 && s[0] == '#');
  }

  /** Both predicates look only at the stripped line. */
  lemma ClassifiersIgnoreSurroundingSpace(line: string)
    ensures IsCommentLine(Strip(line)) == IsCommentLine(line)
    ensures HasInlineComment(Strip(line)) == HasInlineComment(line)
  {
    StripIdempotent(line);
  }
}
