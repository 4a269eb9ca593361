/**
 The input-path convenience of the `IndexCollection` constructor: documentation examples
 use `/path/to/…`, so a path that starts with it is rewritten to live under `collections`.
 The rewrite is Java's `String.replace`, which replaces every occurrence, not only the
 leading one.
 */
module InputPath {

  const Placeholder: string := "/path/to"
  const Replacement: string := "collections"

  /** `s` begins with `p` (Java's `startsWith`). */
  predicate StartsWith(s: string, p: string) {
    |p| <= |s| && s[..|p|] == p
  }

  /** `p` occurs in `s` starting at some position. */
  ghost predicate Occurs(s: string, p: string) {
    exists i :: 0 <= i <= |s| && StartsWith(s[i..], p)
  }

  /**
   Java's `String.replace(target, replacement)`: scanning left to right, each occurrence of
   `target` is replaced and the scan resumes after it.
   */
  function ReplaceAll(s: string, target: string, replacement: string): (r: string)
    requires |target| > 0
    ensures |target| <= |replacement| ==> |s| <= |r|
    ensures |replacement| <= |target| ==> |r| <= |s|
    decreases |s|
  {
    if |s| == 0 then ""
    else if StartsWith(s, target) then replacement + ReplaceAll(s[|target|..], target, replacement)
    else [s[0]] + ReplaceAll(s[1..], target, replacement)
  }

  /** `parts` with `sep` between each two neighbours. */
  function Join(parts: seq<string>, sep: string): string
    decreases |parts|
  {
    if |parts| == 0 then ""
    else if |parts| == 1 then parts[0]
    else parts[0] + sep + Join(parts[1..], sep)
  }

  /** None of `parts` contains the placeholder. */
  ghost predicate FreeOfPlaceholder(parts: seq<string>) {
    forall p | p in parts :: !Occurs(p, Placeholder)
  }

  /**
   The path the collection is read from. A path that starts with the placeholder is cut at
   every placeholder into pieces that hold none, and the pieces are joined again with
   `collections`; everything between the placeholders is kept.
   */
  function RewriteInputPath(input: string): (r: string)
    ensures !StartsWith(input, Placeholder) ==> r == input
    ensures StartsWith(input, Placeholder) ==> StartsWith(r, Replacement) && !Occurs(r, Placeholder)
    ensures StartsWith(input, Placeholder) ==>
              exists parts :: FreeOfPlaceholder(parts) && input == Join(parts, Placeholder)
                              && r == Join(parts, Replacement)
  {
    if StartsWith(input, Placeholder) then
      NoPlaceholderAfterRewrite(input);
      SplitJoins(input);
      ReplaceJoin(Split(input));
      ReplaceAll(input, Placeholder, Replacement)
    else input
  }

  /**
   The pieces of `s` around the placeholders the left-to-right scan replaces; there is
   always at least one, possibly empty.
   */
  function Split(s: string): (parts: seq<string>)
    ensures |parts| >= 1
    decreases |s|
  {
    if |s| == 0 then [""]
    else if StartsWith(s, Placeholder) then [""] + Split(s[|Placeholder|..])
    else
      var rest := Split(s[1..]);
      [[s[0]] + rest[0]] + rest[1..]
  }

  /** The pieces hold no placeholder and joined with it they give `s` back. */
  lemma {:induction false} SplitJoins(s: string)
    ensures FreeOfPlaceholder(Split(s)) && Join(Split(s), Placeholder) == s
    decreases |s|
  {
    if |s| == 0 {
      assert Split(s) == [""];
      assert !StartsWith("", Placeholder);
    } else if StartsWith(s, Placeholder) {
      var rest := Split(s[|Placeholder|..]);
      SplitJoins(s[|Placeholder|..]);
      assert Split(s) == [""] + rest;
      LeadingPlaceholderPieces(s, rest);
    } else {
      var rest := Split(s[1..]);
      SplitJoins(s[1..]);
      assert Split(s) == [[s[0]] + rest[0]] + rest[1..];
      CopiedCharPieces(s, rest);
    }
  }

  /** A leading placeholder is an empty first piece followed by the pieces of the rest. */
  lemma {:induction false} LeadingPlaceholderPieces(s: string, rest: seq<string>)
    requires StartsWith(s, Placeholder) && |rest| >= 1
    requires FreeOfPlaceholder(rest) && Join(rest, Placeholder) == s[|Placeholder|..]
    ensures FreeOfPlaceholder([""] + rest) && Join([""] + rest, Placeholder) == s
  {
    var parts := [""] + rest;
    assert parts[1..] == rest;
    assert Join(parts, Placeholder) == "" + Placeholder + Join(rest, Placeholder);
    assert s == Placeholder + s[|Placeholder|..];
    assert !StartsWith("", Placeholder);
  }

  /** A copied character joins the first piece of the rest. */
  lemma {:induction false} CopiedCharPieces(s: string, rest: seq<string>)
    requires |s| > 0 && !StartsWith(s, Placeholder) && |rest| >= 1
    requires FreeOfPlaceholder(rest) && Join(rest, Placeholder) == s[1..]
    ensures var parts := [[s[0]] + rest[0]] + rest[1..];
            FreeOfPlaceholder(parts) && Join(parts, Placeholder) == s
  {
    var head := [s[0]] + rest[0];
    var parts := [head] + rest[1..];
    JoinHead(s[0], rest);
    assert s == [s[0]] + s[1..];
    assert Join(parts, Placeholder) == s;
    assert s[..|head|] == head by {
      if |rest| >= 2 {
        assert Join(rest, Placeholder) == rest[0] + (Placeholder + Join(rest[1..], Placeholder));
      }
    }
    assert rest[0] in rest;
    HeadFree(s, head, rest[0]);
    forall p | p in parts ensures !Occurs(p, Placeholder) {
      if p != head {
        assert p in rest;
      }
    }
  }

  /** Putting a character in front of the first piece puts it in front of the joined string. */
  lemma {:induction false} JoinHead(c: char, rest: seq<string>)
    requires |rest| >= 1
    ensures Join([[c] + rest[0]] + rest[1..], Placeholder) == [c] + Join(rest, Placeholder)
  {
    var parts := [[c] + rest[0]] + rest[1..];
    assert |parts| == |rest| && parts[0] == [c] + rest[0] && parts[1..] == rest[1..];
    if |rest| >= 2 {
      var j := Join(rest[1..], Placeholder);
      assert Join(parts, Placeholder) == parts[0] + Placeholder + j;
      assert Join(rest, Placeholder) == rest[0] + Placeholder + j;
      assert ([c] + rest[0]) + Placeholder + j == [c] + (rest[0] + Placeholder + j);
    }
  }

  /**
   The first piece the scan builds holds no placeholder: it does not start with one, since
   `s` does not, and its tail is a piece of the rest.
   */
  lemma {:induction false} HeadFree(s: string, head: string, tail: string)
    requires |s| > 0 && !StartsWith(s, Placeholder) && !Occurs(tail, Placeholder)
    requires head == [s[0]] + tail && |head| <= |s| && s[..|head|] == head
    ensures !Occurs(head, Placeholder)
  {
    forall i | 0 <= i <= |head| ensures !StartsWith(head[i..], Placeholder) {
      if i == 0 {
        if |Placeholder| <= |head| {
          assert head[..|Placeholder|] == s[..|Placeholder|];
        }
      } else {
        assert head[i..] == tail[i - 1..];
      }
    }
  }

  /** A string without the placeholder has none left in its tail either. */
  lemma NoOccurrenceInTail(s: string)
    requires |s| > 0 && !Occurs(s, Placeholder)
    ensures !Occurs(s[1..], Placeholder)
  {
    forall i | 0 <= i <= |s[1..]| ensures !StartsWith(s[1..][i..], Placeholder) {
      assert s[1..][i..] == s[i + 1..];
    }
  }

  /**
   An occurrence cannot straddle a piece without the placeholder and a placeholder after
   it, because `/path/to` does not overlap itself: no proper prefix of it is also a suffix.
   */
  lemma NoStraddle(s: string, t: string)
    requires 0 < |s| && !Occurs(s, Placeholder) && StartsWith(t, Placeholder)
    ensures !StartsWith(s + t, Placeholder)
  {
    var u := s + t;
    if |s| < |Placeholder| {
      assert u[|s|] == t[0] == '/';
      if |s| == 5 {
        assert u[6] == t[1] == 'p' != Placeholder[6];
      } else {
        assert Placeholder[|s|] != '/';
      }
    } else {
      assert u[..|Placeholder|] == s[..|Placeholder|];
      assert s[0..] == s;
    }
  }

  /** Where no placeholder starts, the scan copies one character and moves on. */
  lemma CopyFirst(u: string)
    requires |u| > 0 && !StartsWith(u, Placeholder)
    ensures ReplaceAll(u, Placeholder, Replacement) == [u[0]] + ReplaceAll(u[1..], Placeholder, Replacement)
  {
  }

  /** Copying the first character, then the rest, copies the whole. */
  lemma ConsStep(a: string, b: string, s: string, rest: string)
    requires |s| > 0 && a == [s[0]] + b && b == s[1..] + rest
    ensures a == s + rest
  {
    assert s == [s[0]] + s[1..];
  }

  /** The scan copies a piece without the placeholder and reaches the placeholder after it. */
  lemma {:induction false} ReplaceAfterFree(s: string, t: string)
    requires !Occurs(s, Placeholder) && StartsWith(t, Placeholder)
    ensures ReplaceAll(s + t, Placeholder, Replacement) == s + ReplaceAll(t, Placeholder, Replacement)
    decreases |s|
  {
    if |s| == 0 {
      assert s + t == t;
    } else {
      var rt := ReplaceAll(t, Placeholder, Replacement);
      assert ReplaceAll(s[1..] + t, Placeholder, Replacement) == s[1..] + rt by {
        NoOccurrenceInTail(s);
        ReplaceAfterFree(s[1..], t);
      }
      assert ReplaceAll(s + t, Placeholder, Replacement)
             == [s[0]] + ReplaceAll(s[1..] + t, Placeholder, Replacement) by {
        NoStraddle(s, t);
        CopyFirst(s + t);
        assert (s + t)[0] == s[0] && (s + t)[1..] == s[1..] + t;
      }
      ConsStep(ReplaceAll(s + t, Placeholder, Replacement), ReplaceAll(s[1..] + t, Placeholder, Replacement), s, rt);
    }
  }

  /**
   Replacing every placeholder in pieces joined by it gives the same pieces joined by the
   replacement: the pieces themselves are kept character for character.
   */
  lemma {:induction false} ReplaceJoin(parts: seq<string>)
    requires FreeOfPlaceholder(parts)
    ensures ReplaceAll(Join(parts, Placeholder), Placeholder, Replacement) == Join(parts, Replacement)
    decreases |parts|
  {
    if |parts| == 1 {
      ReplaceWithoutOccurrence(parts[0]);
    } else if |parts| >= 2 {
      var rest := Join(parts[1..], Placeholder);
      assert Join(parts, Placeholder) == parts[0] + (Placeholder + rest);
      assert (Placeholder + rest)[..|Placeholder|] == Placeholder;
      ReplaceAfterFree(parts[0], Placeholder + rest);
      ReplaceLeading(rest);
      assert FreeOfPlaceholder(parts[1..]) by {
        forall p | p in parts[1..] ensures !Occurs(p, Placeholder) {
          assert p in parts;
        }
      }
      ReplaceJoin(parts[1..]);
    }
  }

  /**
   The rewrite is determined by the pieces: two ways of writing a path as pieces without
   the placeholder joined by it give the same rewritten path.
   */
  lemma RewriteIsDetermined(a: seq<string>, b: seq<string>)
    requires FreeOfPlaceholder(a) && FreeOfPlaceholder(b)
    requires Join(a, Placeholder) == Join(b, Placeholder)
    ensures Join(a, Replacement) == Join(b, Replacement)
  {
    ReplaceJoin(a);
    ReplaceJoin(b);
  }

  /** Up to the first 'c' it produces, the rewrite copies its input unchanged. */
  lemma {:induction false} CopiesUntilReplacement(s: string, k: nat)
    requires k <= |ReplaceAll(s, Placeholder, Replacement)|
    requires forall j :: 0 <= j < k ==> ReplaceAll(s, Placeholder, Replacement)[j] != 'c'
    ensures k <= |s| && ReplaceAll(s, Placeholder, Replacement)[..k] == s[..k]
    decreases |s|
  {
    var r := ReplaceAll(s, Placeholder, Replacement);
    if k > 0 {
      assert r[0] != 'c';
      assert !StartsWith(s, Placeholder);
      {
        var t := ReplaceAll(s[1..], Placeholder, Replacement);
        assert r == [s[0]] + t;
        forall j | 0 <= j < k - 1 ensures t[j] != 'c' {
          assert t[j] == r[j + 1];
        }
        CopiesUntilReplacement(s[1..], k - 1);
      }
    }
  }

  /**
   After the rewrite no occurrence of the placeholder is left: the replacement cannot
   start one or end one, and any other occurrence would have been replaced by the scan.
   */
  lemma {:induction false} NoPlaceholderAfterRewrite(s: string)
    ensures !Occurs(ReplaceAll(s, Placeholder, Replacement), Placeholder)
    decreases |s|
  {
    if |s| > 0 {
      if StartsWith(s, Placeholder) {
        var t := ReplaceAll(s[|Placeholder|..], Placeholder, Replacement);
        NoPlaceholderAfterRewrite(s[|Placeholder|..]);
        assert ReplaceAll(s, Placeholder, Replacement) == Replacement + t;
        ReplacementStartsNone(t);
      } else {
        var t := ReplaceAll(s[1..], Placeholder, Replacement);
        NoPlaceholderAfterRewrite(s[1..]);
        CopyFirst(s);
        CopiedCharStartsNone(s, t);
      }
    }
  }

  /** The replacement holds no '/', so no placeholder starts inside it. */
  lemma ReplacementStartsNone(t: string)
    requires !Occurs(t, Placeholder)
    ensures !Occurs(Replacement + t, Placeholder)
  {
    var r := Replacement + t;
    forall i | 0 <= i <= |r| ensures !StartsWith(r[i..], Placeholder) {
      if i < |Replacement| {
        assert r[i] == Replacement[i] != '/';
      } else {
        assert r[i..] == t[i - |Replacement|..];
      }
    }
  }

  /**
   A character the scan copies cannot start a placeholder: the scan would only copy what
   follows up to its first 'c', and that would have to spell out the placeholder already.
   */
  lemma CopiedCharStartsNone(s: string, t: string)
    requires |s| > 0 && !StartsWith(s, Placeholder)
    requires t == ReplaceAll(s[1..], Placeholder, Replacement) && !Occurs(t, Placeholder)
    ensures !Occurs([s[0]] + t, Placeholder)
  {
    var r := [s[0]] + t;
    forall i | 0 <= i <= |r| ensures !StartsWith(r[i..], Placeholder) {
      if i == 0 {
        if StartsWith(r, Placeholder) {
          forall j | 0 <= j < |Placeholder| - 1 ensures t[j] != 'c' {
            assert t[j] == r[j + 1] == Placeholder[j + 1];
          }
          CopiesUntilReplacement(s[1..], |Placeholder| - 1);
          assert false;
        }
      } else {
        assert r[i..] == t[i - 1..];
      }
    }
  }

  /** A path without the placeholder anywhere is left alone by the replacement. */
  lemma {:induction false} ReplaceWithoutOccurrence(s: string)
    requires !Occurs(s, Placeholder)
    ensures ReplaceAll(s, Placeholder, Replacement) == s
    decreases |s|
  {
    if |s| > 0 {
      assert !StartsWith(s[0..], Placeholder);
      assert s[0..] == s;
      NoOccurrenceInTail(s);
      ReplaceWithoutOccurrence(s[1..]);
    }
  }

  /**
   Every occurrence is replaced, not just the leading one: `/path/to/m/path/to` becomes
   `collections/mcollections`.
   */
  lemma EveryOccurrenceIsReplaced()
    ensures RewriteInputPath(Placeholder + "/m" + Placeholder) == Replacement + "/m" + Replacement
  {
    var s := Placeholder + "/m" + Placeholder;
    assert s == Placeholder + ("/m" + Placeholder);
    ReplaceLeading("/m" + Placeholder);
    ExampleMiddle();
  }

  /** The scan copies the two characters that do not start a placeholder. */
  lemma ExampleMiddle()
    ensures ReplaceAll("/m" + Placeholder, Placeholder, Replacement) == "/m" + Replacement
  {
    var t := "/m" + Placeholder;
    assert !StartsWith(t, Placeholder) by {
      assert t[1] != Placeholder[1];
    }
    assert t[1..] == "m" + Placeholder;
    var u := "m" + Placeholder;
    assert !StartsWith(u, Placeholder) by {
      assert u[0] != Placeholder[0];
    }
    assert u[1..] == Placeholder + "";
    ReplaceLeading("");
    assert ReplaceAll(u, Placeholder, Replacement) == "m" + Replacement;
  }

  /** A leading placeholder is replaced and the scan resumes right after it. */
  lemma ReplaceLeading(rest: string)
    ensures ReplaceAll(Placeholder + rest, Placeholder, Replacement)
            == Replacement + ReplaceAll(rest, Placeholder, Replacement)
  {
    var s := Placeholder + rest;
    assert s[..|Placeholder|] == Placeholder;
    assert s[|Placeholder|..] == rest;
  }
}
