/** `sanitize_filename` (scraping.py:10-17): remove the characters most file
    systems refuse, turn spaces into underscores, keep at most 100
    characters, in that order. */
module Filename {

  /** The truncation length of the last step. */
  const MaxLength: nat := 100

  /** A character the first step deletes, one of the character class
      `[<>:"/\\|?*\x00-\x1F]`: the nine punctuation marks or a control
      character U+0000 to U+001F. */
  predicate IsForbidden(c: char) {
    c == '<' || c == '>' || c == ':' || c == '"' || c == '/' || c == '\\' ||
    c == '|' || c == '?' || c == '*' || c as int <= 0x1F
  }

  /** A string that the three steps leave as it is. */
  predicate IsSanitized(s: string) {
    |s| <= MaxLength && forall k :: 0 <= k < |s| ==> !IsForbidden(s[k]) && s[k] != ' '
  }

  /** Step one, `re.sub(r'[<>:"/\\|?*\x00-\x1F]', '', s)`. */
  function RemoveForbidden(s: string): string
  {
    if s == [] then [] else (if IsForbidden(s[0]) then [] else [s[0]]) + RemoveForbidden(s[1..])
  }

  /** Removal leaves no forbidden character and never lengthens. */
  lemma {:induction false} RemoveForbiddenPermitted(s: string)
    ensures |RemoveForbidden(s)| <= |s|
    ensures forall k :: 0 <= k < |RemoveForbidden(s)| ==> !IsForbidden(RemoveForbidden(s)[k])
  {
    if s != [] {
      RemoveForbiddenPermitted(s[1..]);
    }
  }

  /** Removal keeps every occurrence of every permitted character. */
  lemma {:induction false} RemoveForbiddenKeepsPermitted(s: string, c: char)
    requires !IsForbidden(c)
    ensures multiset(RemoveForbidden(s))[c] == multiset(s)[c]
  {
    if s != [] {
      assert s == [s[0]] + s[1..];
      RemoveForbiddenKeepsPermitted(s[1..], c);
    }
  }

  /** Step two, `s.replace(' ', '_')`. */
  function ReplaceSpaces(s: string): (r: string)
    ensures |r| == |s|
    ensures forall k :: 0 <= k < |s| ==> r[k] == if s[k] == ' ' then '_' else s[k]
  {
    if s == [] then [] else [if s[0] == ' ' then '_' else s[0]] + ReplaceSpaces(s[1..])
  }

  /** `sanitize_filename`: the first 100 characters of the string with the
      forbidden characters removed and then every space replaced. */
  function SanitizeFilename(filename: string): (r: string)
    ensures IsSanitized(r)
    ensures |r| == if |RemoveForbidden(filename)| <= MaxLength then |RemoveForbidden(filename)| else MaxLength
  {
    RemoveForbiddenPermitted(filename);
    var cleaned := ReplaceSpaces(RemoveForbidden(filename));
    if |cleaned| <= MaxLength then cleaned else cleaned[..MaxLength]
  }

  /** Removal works character by character: it distributes over
      concatenation, so it keeps the order of what survives. */
  lemma {:induction false} RemoveForbiddenConcat(a: string, b: string)
    ensures RemoveForbidden(a + b) == RemoveForbidden(a) + RemoveForbidden(b)
  {
    if a != [] {
      var head := if IsForbidden(a[0]) then [] else [a[0]];
      assert (a + b)[0] == a[0] && (a + b)[1..] == a[1..] + b;
      calc {
        RemoveForbidden(a + b);
        head + RemoveForbidden(a[1..] + b);
        { RemoveForbiddenConcat(a[1..], b); }
        head + (RemoveForbidden(a[1..]) + RemoveForbidden(b));
        (head + RemoveForbidden(a[1..])) + RemoveForbidden(b);
      }
    } else {
      assert a + b == b;
    }
  }

  /** A string with no forbidden character survives removal whole. */
  lemma {:induction false} RemoveForbiddenClean(s: string)
    requires forall k :: 0 <= k < |s| ==> !IsForbidden(s[k])
    ensures RemoveForbidden(s) == s
  {
    if s != [] {
      RemoveForbiddenClean(s[1..]);
    }
  }

  /** A string of forbidden characters only is removed entirely. */
  lemma {:induction false} RemoveForbiddenAll(s: string)
    requires forall k :: 0 <= k < |s| ==> IsForbidden(s[k])
    ensures RemoveForbidden(s) == []
  {
    if s != [] {
      RemoveForbiddenAll(s[1..]);
    }
  }

  /** The output is the first 100 characters of the removal-then-replacement
      string, character for character: each character of the result is the
      corresponding surviving character, with a space turned into `_`. */
  lemma SanitizeFilenameAt(filename: string, k: nat)
    requires k < |SanitizeFilename(filename)|
    ensures var kept := RemoveForbidden(filename);
      k < |kept| && k < MaxLength &&
      SanitizeFilename(filename)[k] == if kept[k] == ' ' then '_' else kept[k]
  {
  }

  /** Neither removal nor replacement can produce what the other step acts
      on, so doing them in the other order gives the same string. */
  lemma {:induction false} RemoveReplaceCommute(s: string)
    ensures ReplaceSpaces(RemoveForbidden(s)) == RemoveForbidden(ReplaceSpaces(s))
  {
    if s != [] {
      RemoveReplaceCommute(s[1..]);
      var c := s[0];
      var d := if c == ' ' then '_' else c;
      assert ReplaceSpaces(s) == [d] + ReplaceSpaces(s[1..]);
      assert IsForbidden(d) == IsForbidden(c);
      var head := if IsForbidden(c) then [] else [c];
      assert ReplaceSpaces(head + RemoveForbidden(s[1..])) == ReplaceSpaces(head) + ReplaceSpaces(RemoveForbidden(s[1..])) by {
        ReplaceSpacesConcat(head, RemoveForbidden(s[1..]));
      }
    }
  }

  /** Replacement works character by character too. */
  lemma {:induction false} ReplaceSpacesConcat(a: string, b: string)
    ensures ReplaceSpaces(a + b) == ReplaceSpaces(a) + ReplaceSpaces(b)
  {
    if a == [] {
      assert a + b == b;
    } else {
      assert (a + b)[0] == a[0] && (a + b)[1..] == a[1..] + b;
      ReplaceSpacesConcat(a[1..], b);
    }
  }

  /** A string that is already a valid file name comes back unchanged. */
  lemma SanitizeFilenameFixesSanitized(s: string)
    requires IsSanitized(s)
    ensures SanitizeFilename(s) == s
  {
    RemoveForbiddenClean(s);
    assert ReplaceSpaces(s) == s;
  }

  /** `sanitize_filename` is idempotent. */
  lemma SanitizeFilenameIdempotent(s: string)
    ensures SanitizeFilename(SanitizeFilename(s)) == SanitizeFilename(s)
  {
    SanitizeFilenameFixesSanitized(SanitizeFilename(s));
  }

  /** Truncation comes last: forbidden characters, however many, do not use
      up the 100-character budget. */
  lemma SanitizeFilenameIgnoresForbiddenPrefix(junk: string, name: string)
    requires forall k :: 0 <= k < |junk| ==> IsForbidden(junk[k])
    ensures SanitizeFilename(junk + name) == SanitizeFilename(name)
  {
    RemoveForbiddenConcat(junk, name);
    RemoveForbiddenAll(junk);
    assert [] + RemoveForbidden(name) == RemoveForbidden(name);
  }

  /** The removal step on the three pieces of "A/B: C*D  E". */
  lemma RemoveForbiddenExample()
    ensures RemoveForbidden("A/B:" + " C*D" + "  E") == "AB" + " CD" + "  E"
  {
    RemoveForbiddenConcat("A/B:", " C*D");
    RemoveForbiddenConcat("A/B:" + " C*D", "  E");
    assert RemoveForbidden("A/B:") == "AB";
    assert RemoveForbidden(" C*D") == " CD";
    assert RemoveForbidden("  E") == "  E";
  }

  /** Removal before replacement: "A/B: C*D  E" becomes "AB_CD__E" (the
      colon goes and the space after it survives as `_`). */
  lemma SanitizeFilenameExample(name: string)
    requires name == "A/B: C*D  E"
    ensures SanitizeFilename(name) == "AB_CD__E"
  {
    RemoveForbiddenExample();
    assert name == "A/B:" + " C*D" + "  E";
    assert ReplaceSpaces("AB" + " CD" + "  E") == "AB_CD__E";
  }
}
