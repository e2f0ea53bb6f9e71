// Text as C sees it: a NUL ends it.
module CText {
  const NUL := '\0'

  // What `c_str` shows of a string
  function CStr(s: string): string {
    if s == "" || s[0] == NUL then "" else [s[0]] + CStr(s[1..])
  }

  // isspace, in the C locale
  predicate IsCSpace(c: char) { c == ' ' || '\t' <= c <= '\r' }

  predicate CBlank(s: string) { forall i :: 0 <= i < |s| ==> IsCSpace(s[i]) }

  lemma {:induction false} CStrOfClean(s: string)
    requires NUL !in s
    ensures CStr(s) == s
  {
    if s != "" {
      CStrOfClean(s[1..]);
    }
  }

  // Exactly the text before the first NUL
  lemma {:induction false} CStrBeforeNul(s: string, after: string)
    requires NUL !in s
    ensures CStr(s + ([NUL] + after)) == s
  {
    if s == "" {
      assert s + ([NUL] + after) == [NUL] + after;
    } else {
      assert (s + ([NUL] + after))[1..] == s[1..] + ([NUL] + after);
      CStrBeforeNul(s[1..], after);
    }
  }

  lemma {:induction false} CStrHasNoNul(s: string)
    ensures NUL !in CStr(s)
  {
    if s != "" && s[0] != NUL {
      CStrHasNoNul(s[1..]);
    }
  }
}
