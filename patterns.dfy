/** The two patterns module creation checks (api/ModuleController.kt): the module-name
    regex and the imgur-link regex, written out as predicates. */
module Patterns {
  import opened Text

  // ---------------------------------------------------------------- the two regexes

  /** `\w` without the UNICODE_CHARACTER_CLASS flag: an ASCII letter, digit or underscore. */
  predicate IsWordChar(c: char) {
    'a' <= c <= 'z' || 'A' <= c <= 'Z' || '0' <= c <= '9' || c == '_'
  }

  /** `[a-zA-Z0-9]`. */
  predicate IsAlnum(c: char) {
    'a' <= c <= 'z' || 'A' <= c <= 'Z' || '0' <= c <= '9'
  }

  predicate AllWord(s: string) { forall i :: 0 <= i < |s| ==> IsWordChar(s[i]) }

  predicate AllAlnum(s: string) { forall i :: 0 <= i < |s| ==> IsAlnum(s[i]) }

  /** What `.` does not match without the DOTALL flag. */
  predicate IsLineTerminator(c: char) {
    c == '\n' || c == '\r' || c == '\U{0085}' || c == '\U{2028}' || c == '\U{2029}'
  }

  /** `newName.matches(nameRegex)` with `nameRegex` = `^\w{3,64}$`. */
  predicate NameValid(name: string) {
    3 <= |name| <= 64 && AllWord(name)
  }

  /** A valid name is a single safe path segment: module folders live under
      `storage/<name>/`, and a name cannot climb out of it or add a level. */
  lemma ValidNameIsPathSegment(name: string)
    requires NameValid(name)
    ensures '/' !in name && '\\' !in name && '.' !in name && ',' !in name
    ensures NameValid(Lower(name))
  {
  }

  /** The part of `imgurRegex` after the optional subdomain: `imgur`, one character that is
      not a line terminator (the `.` of `imgur.com` is not escaped), `com/`, seven letters
      or digits, a dot, and one or more letters or digits up to the end. */
  predicate ImgurTail(t: string) {
    && |t| >= 19
    && t[..5] == "imgur"
    && !IsLineTerminator(t[5])
    && t[6..10] == "com/"
    && AllAlnum(t[10..17])
    && t[17] == '.'
    && AllAlnum(t[18..])
  }

  /** The length of the leading run of word characters. */
  function WordRun(t: string): (k: nat)
    ensures k <= |t| && AllWord(t[..k])
    ensures k < |t| ==> !IsWordChar(t[k])
  {
    if t == [] || !IsWordChar(t[0]) then 0
    else
      var k := 1 + WordRun(t[1..]);
      assert forall i :: 0 < i < k ==> t[..k][i] == t[1..][..k - 1][i - 1];
      k
  }

  /** A word run followed by a non-word character is the whole leading run. */
  lemma WordRunExact(t: string, n: nat)
    requires n < |t| && AllWord(t[..n]) && !IsWordChar(t[n])
    ensures WordRun(t) == n
  {
  }

  /** `(\w+\.)?imgur.com/...`: since `\w` does not match a dot, a subdomain can only be the
      whole leading run of word characters, so the matcher need not backtrack. */
  predicate ImgurHost(t: string) {
    || ImgurTail(t)
    || (var k := WordRun(t); 0 < k < |t| && t[k] == '.' && ImgurTail(t[k + 1..]))
  }

  /** `it.matches(imgurRegex)`: the whole string, with `http` or `https`. */
  predicate ImgurLink(s: string) {
    || ("https://" <= s && ImgurHost(s[8..]))
    || ("http://" <= s && ImgurHost(s[7..]))
  }

  predicate Scheme(x: string) { x == "http://" || x == "https://" }

  /** `(\w+\.)?`: nothing, or one or more word characters and a dot. */
  predicate Subdomain(x: string) {
    x == [] || (|x| >= 2 && AllWord(x[..|x| - 1]) && x[|x| - 1] == '.')
  }

  /** The language of `imgurRegex`: a scheme, an optional subdomain and the tail, wherever
      the two optional parts end. */
  ghost predicate ImgurLanguage(s: string) {
    exists j, k :: 0 <= j <= k <= |s| && Scheme(s[..j]) && Subdomain(s[j..k]) && ImgurTail(s[k..])
  }

  /** The matcher accepts exactly the regex's language. */
  lemma ImgurLinkIsTheRegex(s: string)
    ensures ImgurLink(s) <==> ImgurLanguage(s)
  {
    if ImgurLink(s) {
      var j := if "https://" <= s && ImgurHost(s[8..]) then 8 else 7;
      HostInLanguage(s, j);
    }
    if ImgurLanguage(s) {
      var j, k :| 0 <= j <= k <= |s| && Scheme(s[..j]) && Subdomain(s[j..k]) && ImgurTail(s[k..]);
      LanguageInHost(s, j, k);
    }
  }

  lemma HostInLanguage(s: string, j: nat)
    requires j <= |s| && Scheme(s[..j]) && ImgurHost(s[j..])
    ensures ImgurLanguage(s)
  {
    var t := s[j..];
    if ImgurTail(t) {
      assert Subdomain(s[j..j]);
      assert s[j..] == t;
    } else {
      var n := WordRun(t);
      var k := j + n + 1;
      var sub := s[j..k];
      assert sub == t[..n + 1];
      assert sub[..n] == t[..n];
      assert Subdomain(sub);
      assert s[k..] == t[n + 1..];
      assert Scheme(s[..j]) && Subdomain(s[j..k]) && ImgurTail(s[k..]);
    }
  }

  lemma LanguageInHost(s: string, j: nat, k: nat)
    requires j <= k <= |s| && Scheme(s[..j]) && Subdomain(s[j..k]) && ImgurTail(s[k..])
    ensures ImgurLink(s)
  {
    var t := s[j..];
    if k == j {
      assert t == s[k..];
    } else {
      var sub := s[j..k];
      var n := k - j - 1;
      assert t[..n] == s[j..j + n] == sub[..n];
      assert t[n] == sub[n];
      WordRunExact(t, n);
      assert t[n + 1..] == s[k..];
    }
    assert ImgurHost(t);
    if s[..j] == "https://" {
      assert "https://" <= s;
    } else {
      assert "http://" <= s;
    }
  }

  /** The unescaped dot of the pattern matches any character but a line terminator, so a
      host that is not `imgur.com` gets through. */
  lemma AnyCharExample()
    ensures ImgurLink("http://imgurXcom/AbCd123.png")
  {
    var tail := "imgur" + "X" + "com/" + "AbCd123" + "." + "png";
    var s := "http://" + tail;
    assert "http://imgurXcom/AbCd123.png" == s by { AnyCharPieces(); }
    TailOf('X', "AbCd123", "png");
    assert s[..7] == "http://" && s[7..7] == [] && s[7..] == tail;
    LanguageInHost(s, 7, 7);
  }

  lemma AnyCharPieces()
    ensures "http://imgurXcom/AbCd123.png" == "http://" + ("imgur" + "X" + "com/" + "AbCd123" + "." + "png")
  {
  }

  /** The tail of a link with image id `id` and extension `ext`, `c` standing for the dot. */
  lemma TailOf(c: char, id: string, ext: string)
    requires !IsLineTerminator(c) && |id| == 7 && AllAlnum(id) && |ext| >= 1 && AllAlnum(ext)
    ensures ImgurTail("imgur" + [c] + "com/" + id + "." + ext)
  {
    var t := "imgur" + [c] + "com/" + id + "." + ext;
    assert t[..5] == "imgur";
    assert t[5] == c;
    assert t[6..10] == "com/";
    assert t[10..17] == id;
    assert t[17] == '.';
    assert t[18..] == ext;
  }
}
