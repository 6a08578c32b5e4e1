/**
 * The browser script's string rules: `trim` on the form fields, the add
 * form's check before it sends anything, the partial body of an edit, and
 * `escapeQuotes`, which rewrites the quotes of titles and contents placed in an
 * inline `onclick`.
 */
module Client {
  import opened Wrappers
  import opened Posts

  // ---------------------------------------------------------------------
  // String.prototype.trim
  // ---------------------------------------------------------------------

  /**
   * ECMAScript WhiteSpace and LineTerminator code points, the characters `trim` removes.
   * Each lies in the Basic Multilingual Plane, so it is one UTF-16 code unit of a JavaScript string.
   */
  predicate IsWhiteSpace(c: char)
    ensures IsWhiteSpace(c) ==> c as int < 0x1_0000
    ensures IsWhiteSpace(c) ==> !('0' <= c <= '9' || 'A' <= c <= 'Z' || 'a' <= c <= 'z')
  {
    || c == '\t' || c == '\n' || c == '\U{000B}' || c == '\U{000C}' || c == '\r'
    || c == ' ' || c == '\U{00A0}' || c == '\U{1680}'
    || ('\U{2000}' <= c <= '\U{200A}')
    || c == '\U{2028}' || c == '\U{2029}' || c == '\U{202F}' || c == '\U{205F}'
    || c == '\U{3000}' || c == '\U{FEFF}'
  }

  /** Only white space: what `trim` turns into the empty string. */
  ghost predicate Blank(s: string)
  {
    forall k :: 0 <= k < |s| ==> IsWhiteSpace(s[k])
  }

  function TrimStart(s: string): (r: string)
    ensures |r| <= |s| && r == s[|s| - |r|..]
    ensures forall k :: 0 <= k < |s| - |r| ==> IsWhiteSpace(s[k])
    ensures r != [] ==> !IsWhiteSpace(r[0])
  {
    if s != [] && IsWhiteSpace(s[0]) then TrimStart(s[1..]) else s
  }

  function TrimEnd(s: string): (r: string)
    ensures |r| <= |s| && r == s[..|r|]
    ensures forall k :: |r| <= k < |s| ==> IsWhiteSpace(s[k])
    ensures r != [] ==> !IsWhiteSpace(r[|r| - 1])
  {
    if s != [] && IsWhiteSpace(s[|s| - 1]) then TrimEnd(s[..|s| - 1]) else s
  }

  /** `s.trim()`: the slice of `s` between its leading and its trailing white space. */
  function Trim(s: string): (r: string)
    ensures var i := |s| - |TrimStart(s)|;
      && i + |r| <= |s|
      && r == s[i..i + |r|]
      && (forall k :: 0 <= k < i ==> IsWhiteSpace(s[k]))
      && (forall k :: i + |r| <= k < |s| ==> IsWhiteSpace(s[k]))
    ensures r != [] ==> !IsWhiteSpace(r[0]) && !IsWhiteSpace(r[|r| - 1])
  {
    TrimEnd(TrimStart(s))
  }

  lemma TrimIsEmptyIffBlank(s: string)
    ensures Trim(s) == [] <==> Blank(s)
  {
  }

  lemma TrimIdempotent(s: string)
    ensures Trim(Trim(s)) == Trim(s)
  {
  }

  // ---------------------------------------------------------------------
  // The add form and the edit form
  // ---------------------------------------------------------------------

  /** The JSON body of the add form's POST. */
  datatype NewPostBody = NewPostBody(title: string, content: string)

  /** The body of the edit form's PATCH: a field is sent only when it is present. */
  datatype PatchBody = PatchBody(title: Option<string>, content: Option<string>)

  /** The add form's submit handler: the body it sends, or None when it alerts and sends nothing. */
  function AddFormBody(titleField: string, contentField: string): (r: Option<NewPostBody>)
    ensures r.None? <==> Blank(titleField) || Blank(contentField)
    ensures r.Some? ==> r.value.title == Trim(titleField) && r.value.content == Trim(contentField)
  {
    TrimIsEmptyIffBlank(titleField);
    TrimIsEmptyIffBlank(contentField);
    var title := Trim(titleField);
    var content := Trim(contentField);
    if title == [] || content == [] then None else Some(NewPostBody(title, content))
  }

  /** The edit form's `updateData`: each trimmed field that is not empty, and nothing else. */
  function EditPayload(titleField: string, contentField: string): (r: PatchBody)
    ensures r.title.Some? <==> !Blank(titleField)
    ensures r.content.Some? <==> !Blank(contentField)
    ensures r.title.Some? ==> r.title.value == Trim(titleField) && r.title.value != []
    ensures r.content.Some? ==> r.content.value == Trim(contentField) && r.content.value != []
  {
    TrimIsEmptyIffBlank(titleField);
    TrimIsEmptyIffBlank(contentField);
    var title := Trim(titleField);
    var content := Trim(contentField);
    PatchBody(if title != [] then Some(title) else None,
              if content != [] then Some(content) else None)
  }

  /** Whatever the add form sends, the server stores: a post with the trimmed fields and the next id. */
  lemma AddFormBodyIsAccepted(posts: seq<Post>, titleField: string, contentField: string, now: int)
    requires AddFormBody(titleField, contentField).Some?
    ensures var body := AddFormBody(titleField, contentField).value;
      HandleCreate(posts, Some(body.title), Some(body.content), now)
        == Step(posts + [Post(|posts| + 1, Trim(titleField), Trim(contentField), now)],
                Ok(Post(|posts| + 1, Trim(titleField), Trim(contentField), now)))
  {
  }

  /**
   * The server's check is weaker than the form's: a non-empty title made only of
   * white space, sent with any content the form would accept, is refused by the
   * form and stored unchanged by the server.
   */
  lemma BlankTitleOnlyRefusedByForm(posts: seq<Post>, title: string, content: string, now: int)
    requires title != [] && Blank(title) && !Blank(content)
    ensures AddFormBody(title, content) == None
    ensures HandleCreate(posts, Some(title), Some(content), now).response == Ok(Post(|posts| + 1, title, content, now))
    ensures AddFormBody(" ", "Hello") == None
  {
  }

  /**
   * An edit never blanks a stored field: every field that is sent replaces
   * the stored one, every field left empty in the form keeps its value.
   */
  lemma EditNeverBlanksAField(posts: seq<Post>, id: Option<int>, titleField: string, contentField: string)
    requires AllFilled(posts)
    ensures var body := EditPayload(titleField, contentField);
      AllFilled(HandleUpdate(posts, id, body.title, body.content).posts)
    ensures var body := EditPayload(titleField, contentField);
      var after := HandleUpdate(posts, id, body.title, body.content).posts;
      FirstMatch(posts, id).Some? ==>
        var k := FirstMatch(posts, id).value;
        && after[k].title == (if Blank(titleField) then posts[k].title else Trim(titleField))
        && after[k].content == (if Blank(contentField) then posts[k].content else Trim(contentField))
  {
    var body := EditPayload(titleField, contentField);
    HandleKeepsAllFilled(posts, UpdatePost(id, body.title, body.content));
  }

  // ---------------------------------------------------------------------
  // escapeQuotes
  // ---------------------------------------------------------------------

  /** Occurrences of `c` in `s`. */
  function Count(s: string, c: char): nat
  {
    if s == [] then 0 else (if s[0] == c then 1 else 0) + Count(s[1..], c)
  }

  /** `s.replace(/c/g, rep)` for a one-character pattern. */
  function ReplaceAll(s: string, c: char, rep: string): (r: string)
    ensures |r| == |s| + (|rep| - 1) * Count(s, c)
  {
    if s == [] then [] else (if s[0] == c then rep else [s[0]]) + ReplaceAll(s[1..], c, rep)
  }

  /**
   * `escapeQuotes`: first every `'` becomes `\'`, then every `"` becomes `&quot;`.
   * The result is the character-by-character rewrite `EscapeEach`: it holds no `"`,
   * and every `'` in it comes right after a backslash.
   */
  function EscapeQuotes(s: string): (r: string)
    ensures r == EscapeEach(s)
    ensures |r| == |s| + Count(s, '\'') + 5 * Count(s, '"')
    ensures forall i :: 0 <= i < |r| ==> r[i] != '"'
    ensures forall i :: 0 <= i < |r| && r[i] == '\'' ==> 0 < i && r[i - 1] == '\\'
  {
    EscapeQuotesIsPerCharacter(s);
    EscapeEachProperties(s);
    ReplaceAll(ReplaceAll(s, '\'', "\\'"), '"', "&quot;")
  }

  /** What `escapeQuotes` does to one character. */
  function EscapeChar(c: char): string
  {
    if c == '\'' then "\\'" else if c == '"' then "&quot;" else [c]
  }

  /** A one-pass rewrite, character by character, used as the reference for the two passes. */
  function EscapeEach(s: string): string
  {
    if s == [] then [] else EscapeChar(s[0]) + EscapeEach(s[1..])
  }

  /**
   * The one-pass rewrite adds one character per `'` and five per `"`, leaves no `"`,
   * puts a backslash right before every `'`, and never starts with `'`.
   */
  lemma {:induction false} EscapeEachProperties(s: string)
    ensures var r := EscapeEach(s);
      && |r| == |s| + Count(s, '\'') + 5 * Count(s, '"')
      && (forall i :: 0 <= i < |r| ==> r[i] != '"')
      && (forall i :: 0 <= i < |r| && r[i] == '\'' ==> 0 < i && r[i - 1] == '\\')
      && (r != [] ==> r[0] != '\'')
  {
    if s != [] {
      var head := EscapeChar(s[0]);
      var rest := EscapeEach(s[1..]);
      EscapeEachProperties(s[1..]);
      assert EscapeEach(s) == head + rest;
      forall i | |head| <= i < |head| + |rest|
        ensures (head + rest)[i] == rest[i - |head|]
      {
      }
    }
  }

  lemma {:induction false} ReplaceAllAppend(a: string, b: string, c: char, rep: string)
    ensures ReplaceAll(a + b, c, rep) == ReplaceAll(a, c, rep) + ReplaceAll(b, c, rep)
  {
    if a == [] {
      assert a + b == b;
    } else {
      assert (a + b)[0] == a[0] && (a + b)[1..] == a[1..] + b;
      ReplaceAllAppend(a[1..], b, c, rep);
      var head := if a[0] == c then rep else [a[0]];
      assert ReplaceAll(a + b, c, rep) == head + ReplaceAll(a[1..] + b, c, rep);
      assert ReplaceAll(a, c, rep) == head + ReplaceAll(a[1..], c, rep);
    }
  }

  /** The two global replaces rewrite each character on its own, as `EscapeChar` says. */
  lemma {:induction false} EscapeQuotesIsPerCharacter(s: string)
    ensures ReplaceAll(ReplaceAll(s, '\'', "\\'"), '"', "&quot;") == EscapeEach(s)
  {
    if s != [] {
      assert s == [s[0]] + s[1..];
      var once := ReplaceAll([s[0]], '\'', "\\'");
      ReplaceAllAppend([s[0]], s[1..], '\'', "\\'");
      ReplaceAllAppend(once, ReplaceAll(s[1..], '\'', "\\'"), '"', "&quot;");
      assert [s[0]][1..] == [];
      if s[0] == '\'' {
        assert once == "\\'";
        assert ReplaceAll(once, '"', "&quot;") == ['\\'] + ReplaceAll(['\''], '"', "&quot;");
        assert ['\''][1..] == [];
      }
      assert ReplaceAll(once, '"', "&quot;") == EscapeChar(s[0]);
      EscapeQuotesIsPerCharacter(s[1..]);
    }
  }

  /**
   * Backslashes are copied, not escaped. A `\'` in the input comes out as `\\'`,
   * whose quote closes a single-quoted JavaScript string; a trailing `\` escapes
   * the quote that the markup puts after the value.
   */
  lemma BackslashesPassThrough()
    ensures EscapeQuotes("\\'") == "\\\\'"
    ensures EscapeQuotes("a\\") == "a\\"
  {
    assert "\\'" == ['\\'] + ['\''];
    EscapeEachAppend(['\\'], ['\'']);
    assert "a\\" == ['a'] + ['\\'];
    EscapeEachAppend(['a'], ['\\']);
    assert ['\\'][1..] == [] && ['\''][1..] == [] && ['a'][1..] == [];
  }

  /** Escaping works piecewise: a character in the middle is rewritten on its own, the rest stays in order around it. */
  lemma {:induction false} EscapeQuotesSplit(before: string, c: char, after: string)
    ensures EscapeQuotes(before + [c] + after) == EscapeQuotes(before) + EscapeChar(c) + EscapeQuotes(after)
  {
    EscapeEachAppend(before + [c], after);
    EscapeEachAppend(before, [c]);
    assert [c][1..] == [];
    assert EscapeEach([c]) == EscapeChar(c);
  }

  lemma {:induction false} EscapeEachAppend(a: string, b: string)
    ensures EscapeEach(a + b) == EscapeEach(a) + EscapeEach(b)
  {
    if a == [] {
      assert a + b == b;
    } else {
      assert (a + b)[0] == a[0] && (a + b)[1..] == a[1..] + b;
      EscapeEachAppend(a[1..], b);
    }
  }

  /** A string without quotes comes out unchanged. */
  lemma {:induction false} EscapeQuotesKeepsQuoteFree(s: string)
    requires forall i :: 0 <= i < |s| ==> s[i] != '\'' && s[i] != '"'
    ensures EscapeQuotes(s) == s
  {
    EscapeEachKeepsQuoteFree(s);
  }

  lemma {:induction false} EscapeEachKeepsQuoteFree(s: string)
    requires forall i :: 0 <= i < |s| ==> s[i] != '\'' && s[i] != '"'
    ensures EscapeEach(s) == s
  {
    if s != [] {
      EscapeEachKeepsQuoteFree(s[1..]);
    }
  }
}
