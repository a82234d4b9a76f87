/** The two character rewrites that turn an uploaded file name into a safe blob name:
    replacing the characters `? # < > : " \ / | *` by `_`, and collapsing runs of white space. */
module Names {
  import opened Seqs
  import opened Text

  /** The character class `[?#<>:"\\/|*]` used by both the server and the browser client. */
  predicate IsForbidden(c: char) {
    c == '?' || c == '#' || c == '<' || c == '>' || c == ':' || c == '"'
    || c == '\\' || c == '/' || c == '|' || c == '*'
  }

  predicate NoForbidden(s: string) {
    forall i :: 0 <= i < |s| ==> !IsForbidden(s[i])
  }

  /** A character that neither rewrite touches or introduces. */
  predicate IsPlain(c: char) {
    !IsForbidden(c) && !IsWhitespace(c) && c != '_'
  }

  /** `s.replace(/[?#<>:"\\/|*]/g, "_")`. */
  function ReplaceForbidden(s: string): (r: string)
    ensures |r| == |s|
    ensures forall i :: 0 <= i < |s| ==> r[i] == (if IsForbidden(s[i]) then '_' else s[i])
  {
    if |s| == 0 then []
    else [if IsForbidden(s[0]) then '_' else s[0]] + ReplaceForbidden(s[1..])
  }

  /** `s.replace(/\s+/g, "_")`: every maximal run of white space becomes a single `_`. */
  function CollapseWhitespace(s: string): (r: string)
    ensures |r| <= |s|
    ensures NoWhitespace(r)
    ensures forall i :: 0 <= i < |r| ==> r[i] == '_' || r[i] in s
    decreases |s|
  {
    if |s| == 0 then []
    else if IsWhitespace(s[0]) then
      var t := TrimStart(s);
      assert |t| < |s| by { assert AllWhitespace(s[..|s| - |t|]); }
      var rest := CollapseWhitespace(t);
      assert forall i :: 0 <= i < |rest| && rest[i] in t ==> rest[i] in s;
      "_" + rest
    else
      var rest := CollapseWhitespace(s[1..]);
      [s[0]] + rest
  }

  /** Text without white space passes through the collapse unchanged. */
  lemma {:induction false} CollapseWithoutWhitespace(s: string)
    requires NoWhitespace(s)
    ensures CollapseWhitespace(s) == s
  {
    if |s| > 0 {
      CollapseWithoutWhitespace(s[1..]);
    }
  }

  /** A non-empty run of white space followed by text that does not start with white space
      contributes exactly one `_`. */
  lemma CollapseRun(w: string, t: string)
    requires |w| > 0 && AllWhitespace(w)
    requires |t| == 0 || !IsWhitespace(t[0])
    ensures CollapseWhitespace(w + t) == "_" + CollapseWhitespace(t)
  {
    var s := w + t;
    var u := TrimStart(s);
    TrimStartPast(w, t);
    assert u == t;
  }

  /** `TrimStart` removes exactly a leading white-space run. */
  lemma {:induction false} TrimStartPast(w: string, t: string)
    requires AllWhitespace(w)
    requires |t| == 0 || !IsWhitespace(t[0])
    ensures TrimStart(w + t) == t
  {
    if |w| > 0 {
      assert (w + t)[1..] == w[1..] + t;
      TrimStartPast(w[1..], t);
    } else {
      assert w + t == t;
    }
  }

  /** Text without white space is copied in front of whatever follows it. */
  lemma {:induction false} CollapsePlainPrefix(a: string, t: string)
    requires NoWhitespace(a)
    ensures CollapseWhitespace(a + t) == a + CollapseWhitespace(t)
  {
    if |a| > 0 {
      assert (a + t)[1..] == a[1..] + t;
      CollapsePlainPrefix(a[1..], t);
    } else {
      assert a + t == t;
    }
  }

  /** Replacing forbidden characters keeps every plain character, in order. */
  lemma {:induction false} ReplaceKeepsPlain(s: string)
    ensures Filter(ReplaceForbidden(s), IsPlain) == Filter(s, IsPlain)
  {
    if |s| > 0 {
      ReplaceKeepsPlain(s[1..]);
      assert ReplaceForbidden(s)[1..] == ReplaceForbidden(s[1..]);
    }
  }

  /** Collapsing white space keeps every plain character, in order. */
  lemma {:induction false} CollapseKeepsPlain(s: string)
    ensures Filter(CollapseWhitespace(s), IsPlain) == Filter(s, IsPlain)
    decreases |s|
  {
    if |s| > 0 {
      if IsWhitespace(s[0]) {
        var t := TrimStart(s);
        var k := |s| - |t|;
        CollapseKeepsPlain(t);
        assert s == s[..k] + t;
        FilterAppend(s[..k], t, IsPlain);
        assert Filter(s[..k], IsPlain) == [] by {
          NothingPlain(s[..k]);
        }
        assert CollapseWhitespace(s) == "_" + CollapseWhitespace(t);
        FilterAppend("_", CollapseWhitespace(t), IsPlain);
      } else {
        CollapseKeepsPlain(s[1..]);
        assert CollapseWhitespace(s) == [s[0]] + CollapseWhitespace(s[1..]);
      }
    }
  }

  /** White space holds no plain character. */
  lemma {:induction false} NothingPlain(w: string)
    requires AllWhitespace(w)
    ensures Filter(w, IsPlain) == []
  {
    if |w| > 0 {
      NothingPlain(w[1..]);
    }
  }
}
