/**
 * `tokenize_directory` of main.py over a directory listing given as a
 * value: the walk's files in traversal order, each with its name, its
 * joined path and, when it could be opened and read, its decoded text.
 * A file is kept when its name matches the extension pattern; an unreadable
 * file is skipped.
 */
module CorpusLoader {
  import opened Wrappers
  import opened Tokenizer

  /** The alternatives of the pattern `.*\.(c|cpp|py|java|js|html|css|php|sql|txt)$`. */
  const EXTENSIONS: seq<string> := ["c", "cpp", "py", "java", "js", "html", "css", "php", "sql", "txt"]

  predicate EndsWith(s: string, suffix: string) {
    |suffix| <= |s| && s[|s| - |suffix|..] == suffix
  }

  /** The part of a name that `$` closes: `$` also matches just before one
      final line feed. */
  function Body(name: string): string {
    if name != [] && name[|name| - 1] == '\n' then name[..|name| - 1] else name
  }

  /** `re.match` of the pattern against a file name: anchored at the start,
      `.` never matches a line feed, and the name ends in `.` and one of the
      extensions. */
  predicate MatchesSourcePattern(name: string) {
    var body := Body(name);
    (forall i :: 0 <= i < |body| ==> body[i] != '\n')
    && exists k :: 0 <= k < |EXTENSIONS| && EndsWith(body, ['.'] + EXTENSIONS[k])
  }

  /** The text after the last `.` of `s`, if `s` has a `.`. */
  function AfterLastDot(s: string): Option<string> {
    if s == [] then None
    else if s[|s| - 1] == '.' then Some([])
    else match AfterLastDot(s[..|s| - 1])
      case None => None
      case Some(e) => Some(e + [s[|s| - 1]])
  }

  /** A reference form of the filter: the name's extension, read off after
      its last dot, is one of the listed ones. */
  predicate HasSourceExtension(name: string) {
    var body := Body(name);
    (forall i :: 0 <= i < |body| ==> body[i] != '\n')
    && AfterLastDot(body).Some? && AfterLastDot(body).value in EXTENSIONS
  }

  lemma {:induction false} AfterLastDotSound(s: string)
    requires AfterLastDot(s).Some?
    ensures EndsWith(s, ['.'] + AfterLastDot(s).value)
    ensures '.' !in AfterLastDot(s).value
    decreases |s|
  {
    if s[|s| - 1] != '.' {
      var init := s[..|s| - 1];
      AfterLastDotSound(init);
      var e := AfterLastDot(init).value;
      assert s == init + [s[|s| - 1]];
      assert s[|s| - |e| - 2..] == init[|init| - |e| - 1..] + [s[|s| - 1]];
    }
  }

  lemma {:induction false} AfterLastDotComplete(s: string, e: string)
    requires '.' !in e
    requires EndsWith(s, ['.'] + e)
    ensures AfterLastDot(s) == Some(e)
    decreases |e|
  {
    if e != [] {
      assert s[|s| - 1] == e[|e| - 1];
      assert e[|e| - 1] in e;
      var init, e' := s[..|s| - 1], e[..|e| - 1];
      assert init[|init| - |e'| - 1..] == s[|s| - |e| - 1..|s| - 1];
      assert ['.'] + e' == (['.'] + e)[..|e|];
      assert '.' !in e' by {
        forall i | 0 <= i < |e'| ensures e'[i] != '.' {
          assert e'[i] == e[i];
        }
      }
      AfterLastDotComplete(init, e');
      assert e' + [e[|e| - 1]] == e;
    } else {
      assert s[|s| - 1] == '.';
    }
  }

  /** The pattern and the reference form accept the same names. */
  lemma MatchesIffHasSourceExtension(name: string)
    ensures MatchesSourcePattern(name) <==> HasSourceExtension(name)
  {
    var body := Body(name);
    assert forall k :: 0 <= k < |EXTENSIONS| ==> '.' !in EXTENSIONS[k];
    if exists k :: 0 <= k < |EXTENSIONS| && EndsWith(body, ['.'] + EXTENSIONS[k]) {
      var k :| 0 <= k < |EXTENSIONS| && EndsWith(body, ['.'] + EXTENSIONS[k]);
      AfterLastDotComplete(body, EXTENSIONS[k]);
    }
    if AfterLastDot(body).Some? && AfterLastDot(body).value in EXTENSIONS {
      AfterLastDotSound(body);
      var k :| 0 <= k < |EXTENSIONS| && EXTENSIONS[k] == AfterLastDot(body).value;
    }
  }

  /** One file of the walk. `content` is `None` when opening or reading it
      raised. */
  datatype DirEntry = DirEntry(path: string, name: string, content: Option<string>)

  /** An element of `token_tuples`: a file's path and its tokens. */
  datatype TokenizedFile = TokenizedFile(path: string, tokens: seq<string>)

  predicate Selected(e: DirEntry) {
    MatchesSourcePattern(e.name) && e.content.Some?
  }

  /** What `tokenize_directory` returns for a listing. */
  function Loaded(entries: seq<DirEntry>): seq<TokenizedFile> {
    if entries == [] then []
    else
      var last := entries[|entries| - 1];
      Loaded(entries[..|entries| - 1])
        + if Selected(last) then [TokenizedFile(last.path, ExtractTokens(last.content.value))] else []
  }

  /** A file is in the result exactly when a readable entry with a matching
      name produced it; unreadable files are absent. */
  lemma {:induction false} LoadedMembership(entries: seq<DirEntry>, f: TokenizedFile)
    ensures f in Loaded(entries) <==>
      exists i :: 0 <= i < |entries| && Selected(entries[i])
        && f == TokenizedFile(entries[i].path, ExtractTokens(entries[i].content.value))
    decreases |entries|
  {
    if entries != [] {
      var init := entries[..|entries| - 1];
      LoadedMembership(init, f);
      assert forall i :: 0 <= i < |init| ==> init[i] == entries[i];
    }
  }

  /** Every loaded file carries well-formed tokens. */
  lemma LoadedTokensAreTokens(entries: seq<DirEntry>)
    ensures forall k :: 0 <= k < |Loaded(entries)| ==> AllTokens(Loaded(entries)[k].tokens)
  {
    var files := Loaded(entries);
    forall k | 0 <= k < |files| ensures AllTokens(files[k].tokens) {
      LoadedMembership(entries, files[k]);
      var i :| 0 <= i < |entries| && Selected(entries[i])
        && files[k] == TokenizedFile(entries[i].path, ExtractTokens(entries[i].content.value));
      TokensAreWellFormed(entries[i].content.value);
    }
  }

  /** `tokenize_directory` (main.py:14-28). */
  method TokenizeDirectory(entries: seq<DirEntry>) returns (tokenTuples: seq<TokenizedFile>)
    ensures tokenTuples == Loaded(entries)
  {
    tokenTuples := [];
    for i := 0 to |entries|
      invariant tokenTuples == Loaded(entries[..i])
    {
      var entry := entries[i];
      assert entries[..i + 1][..i] == entries[..i];
      if MatchesSourcePattern(entry.name) {
        match entry.content
        case Some(source) =>
          var tokens := ExtractTokens(source);
          tokenTuples := tokenTuples + [TokenizedFile(entry.path, tokens)];
        case None =>
      }
    }
    assert entries[..|entries|] == entries;
  }
}
