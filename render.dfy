/**
 * The text of a feed post: `RssItem::to_message` in src/model.rs, a chain of
 * `str::replace` calls over the task's template.
 *
 * `Replace` is `str::replace` for a non-empty pattern: occurrences are found
 * left to right and never overlap. Its reference definition is "split at the
 * pattern, join with the replacement"; `ReplaceIsSplitJoin` ties the two.
 */
module Render {
  import opened Wrappers
  import opened Model

  predicate StartsWith(s: string, pat: string)
  {
    |pat| <= |s| && s[..|pat|] == pat
  }

  /** `pat` occurs in `s` at index `i`. */
  predicate OccursAt(s: string, pat: string, i: int)
  {
    0 <= i && i + |pat| <= |s| && s[i..i + |pat|] == pat
  }

  /** `pat` occurs somewhere in `s`. */
  ghost predicate Occurs(s: string, pat: string)
  {
    exists i :: OccursAt(s, pat, i)
  }

  function Replace(s: string, pat: string, rep: string): string
    requires |pat| > 0
    decreases |s|
  {
    if |s| < |pat| then s
    else if StartsWith(s, pat) then rep + Replace(s[|pat|..], pat, rep)
    else [s[0]] + Replace(s[1..], pat, rep)
  }

  /** `str::split`: the pieces of `s` between the occurrences of `pat`. */
  function Split(s: string, pat: string): (parts: seq<string>)
    requires |pat| > 0
    ensures |parts| > 0
    decreases |s|
  {
    if |s| < |pat| then [s]
    else if StartsWith(s, pat) then [[]] + Split(s[|pat|..], pat)
    else
      var t := Split(s[1..], pat);
      [[s[0]] + t[0]] + t[1..]
  }

  function Join(parts: seq<string>, sep: string): string
    requires |parts| > 0
  {
    if |parts| == 1 then parts[0] else parts[0] + sep + Join(parts[1..], sep)
  }

  /** Prepending a character to the first piece prepends it to the joined text. */
  lemma JoinConsFirst(c: char, t: seq<string>, sep: string)
    requires |t| > 0
    ensures Join([[c] + t[0]] + t[1..], sep) == [c] + Join(t, sep)
  {
    var u := [[c] + t[0]] + t[1..];
    assert u[1..] == t[1..];
  }

  /** `str::replace` is split-then-join. */
  lemma {:induction false} ReplaceIsSplitJoin(s: string, pat: string, rep: string)
    requires |pat| > 0
    ensures Replace(s, pat, rep) == Join(Split(s, pat), rep)
    decreases |s|
  {
    if |s| < |pat| {
    } else if StartsWith(s, pat) {
      ReplaceIsSplitJoin(s[|pat|..], pat, rep);
      var u := [[]] + Split(s[|pat|..], pat);
      assert u[1..] == Split(s[|pat|..], pat);
    } else {
      ReplaceIsSplitJoin(s[1..], pat, rep);
      JoinConsFirst(s[0], Split(s[1..], pat), rep);
    }
  }

  /** Replacing a pattern by itself changes nothing. */
  lemma {:induction false} ReplaceSelf(s: string, pat: string)
    requires |pat| > 0
    ensures Replace(s, pat, pat) == s
    decreases |s|
  {
    if |s| < |pat| {
    } else if StartsWith(s, pat) {
      ReplaceSelf(s[|pat|..], pat);
      assert s == s[..|pat|] + s[|pat|..];
    } else {
      ReplaceSelf(s[1..], pat);
      assert s == [s[0]] + s[1..];
    }
  }

  /** Splitting at a pattern and joining with the same pattern gives the text back. */
  lemma SplitJoinRoundTrip(s: string, pat: string)
    requires |pat| > 0
    ensures Join(Split(s, pat), pat) == s
  {
    ReplaceIsSplitJoin(s, pat, pat);
    ReplaceSelf(s, pat);
  }

  /** A text without the pattern is left as it is. */
  lemma {:induction false} ReplaceAbsent(s: string, pat: string, rep: string)
    requires |pat| > 0 && !Occurs(s, pat)
    ensures Replace(s, pat, rep) == s
    decreases |s|
  {
    assert StartsWith(s, pat) ==> OccursAt(s, pat, 0);
    if |s| < |pat| {
    } else if StartsWith(s, pat) {
      assert false;
    } else {
      var r := s[1..];
      AbsentFromTail(s, pat);
      ReplaceAbsent(r, pat, rep);
      assert s == [s[0]] + r;
    }
  }

  lemma AbsentFromTail(s: string, pat: string)
    requires |s| > 0 && !Occurs(s, pat)
    ensures !Occurs(s[1..], pat)
  {
    forall i | OccursAt(s[1..], pat, i) ensures OccursAt(s, pat, i + 1) {
      assert s[i + 1..i + 1 + |pat|] == s[1..][i..i + |pat|];
    }
  }

  /** The first piece of a split is a prefix of the text. */
  lemma {:induction false} SplitFirstIsPrefix(s: string, pat: string)
    requires |pat| > 0
    ensures |Split(s, pat)[0]| <= |s| && Split(s, pat)[0] == s[..|Split(s, pat)[0]|]
    decreases |s|
  {
    if |s| < |pat| {
    } else if StartsWith(s, pat) {
      assert Split(s, pat)[0] == [];
    } else {
      var t := Split(s[1..], pat);
      SplitFirstIsPrefix(s[1..], pat);
      assert Split(s, pat)[0] == [s[0]] + t[0];
      assert s[..1 + |t[0]|] == [s[0]] + s[1..][..|t[0]|];
    }
  }

  /** No piece of a split contains the pattern. */
  lemma {:induction false} SplitPiecesAvoid(s: string, pat: string)
    requires |pat| > 0
    ensures forall k :: 0 <= k < |Split(s, pat)| ==> !Occurs(Split(s, pat)[k], pat)
    decreases |s|
  {
    var parts := Split(s, pat);
    if |s| < |pat| {
    } else if StartsWith(s, pat) {
      SplitPiecesAvoid(s[|pat|..], pat);
      var rest := Split(s[|pat|..], pat);
      assert parts == [[]] + rest;
      forall k | 0 <= k < |parts| ensures !Occurs(parts[k], pat) {
        if k > 0 {
          assert parts[k] == rest[k - 1];
        }
      }
    } else {
      var t := Split(s[1..], pat);
      SplitPiecesAvoid(s[1..], pat);
      SplitFirstIsPrefix(s[1..], pat);
      assert !Occurs(t[0], pat);
      FirstPieceAvoids(s, t[0], pat);
      assert parts == [[s[0]] + t[0]] + t[1..];
      forall k | 0 <= k < |parts| ensures !Occurs(parts[k], pat) {
        if k > 0 {
          assert parts[k] == t[k];
        }
      }
    }
  }

  /**
   * A text that does not start with the pattern, cut after one character
   * more than a pattern-free prefix of its tail, is pattern-free.
   */
  lemma FirstPieceAvoids(s: string, p: string, pat: string)
    requires |s| > 0 && |pat| > 0 && !StartsWith(s, pat)
    requires |p| <= |s| - 1 && p == s[1..][..|p|] && !Occurs(p, pat)
    ensures !Occurs([s[0]] + p, pat)
  {
    var c := [s[0]] + p;
    assert c == s[..|c|];
    forall i | 0 <= i && i + |pat| <= |c| ensures !OccursAt(c, pat, i) {
      if i == 0 {
        assert c[..|pat|] == s[..|pat|];
      } else {
        assert c[i..i + |pat|] == p[i - 1..i - 1 + |pat|];
        assert !OccursAt(p, pat, i - 1);
      }
    }
  }

  /**
   * `RssItem::to_message`: with a template, `{title}`, then `{pub_date}`,
   * then `{url}`, then the two-character escape `\n` are substituted in that
   * order, each over the output of the previous one; without a template the
   * post is the title, a blank line and the link.
   */
  function ToMessage(item: RssItem, template: Option<string>): string
  {
    match template
    case Some(t) =>
      var a := Replace(t, "{title}", item.title);
      var b := Replace(a, "{pub_date}", item.pub_date_text);
      var c := Replace(b, "{url}", item.link);
      Replace(c, "\\n", "\n")
    case None => item.title + "\n\n" + item.link
  }

  /** Neither `{title}`, `{pub_date}`, `{url}` nor the escape `\n` occurs. */
  ghost predicate Literal(s: string)
  {
    !Occurs(s, "{title}") && !Occurs(s, "{pub_date}") && !Occurs(s, "{url}") && !Occurs(s, "\\n")
  }

  /** A template without placeholders is posted verbatim. */
  lemma LiteralTemplateVerbatim(item: RssItem, t: string)
    requires Literal(t)
    ensures ToMessage(item, Some(t)) == t
  {
    ReplaceAbsent(t, "{title}", item.title);
    ReplaceAbsent(t, "{pub_date}", item.pub_date_text);
    ReplaceAbsent(t, "{url}", item.link);
    ReplaceAbsent(t, "\\n", "\n");
  }

  /** The template `{title}` posts a plain title unchanged. */
  lemma TitleTemplate(item: RssItem)
    requires Literal(item.title)
    ensures ToMessage(item, Some("{title}")) == item.title
  {
    TitlePatternReplaced(item.title);
    ReplaceAbsent(item.title, "{pub_date}", item.pub_date_text);
    ReplaceAbsent(item.title, "{url}", item.link);
    ReplaceAbsent(item.title, "\\n", "\n");
  }

  /** The template `{title}` substitutes the pattern away and leaves the title. */
  lemma TitlePatternReplaced(title: string)
    ensures Replace("{title}", "{title}", title) == title
  {
    var pat := "{title}";
    assert StartsWith(pat, pat);
    assert pat[|pat|..] == [];
    assert Replace(pat, pat, title) == title + Replace([], pat, title);
  }

  /**
   * The substitutions are chained, not simultaneous: the template `{title}`
   * renders like a template that is the title itself, so any `{pub_date}`,
   * `{url}` or escape inside the title is substituted by the later steps.
   */
  lemma ChainedSubstitution(item: RssItem)
    requires !Occurs(item.title, "{title}")
    ensures ToMessage(item, Some("{title}")) == ToMessage(item, Some(item.title))
  {
    TitlePatternReplaced(item.title);
    ReplaceAbsent(item.title, "{title}", item.title);
  }

  /** For example, a title that reads `{url}` is posted as the link. */
  lemma UrlTitleBecomesLink()
    ensures ToMessage(RssItem("{url}", "L", 0, "D"), Some("{title}")) == "L"
  {
    TitlePatternReplaced("{url}");
    var u := "{url}";
    assert !StartsWith(u, "{pub_date}");
    assert Replace(u, "{pub_date}", "D") == u;
    assert StartsWith(u, u);
    assert u[|u|..] == [];
    assert Replace(u, u, "L") == "L" + Replace([], u, "L");
    assert Replace("L", "\\n", "\n") == "L";
  }
}
