// `load_jsonc` (utils.py): comment removal by the regular expression
// `/\*.*?\*/|//[^\n]*` applied with DOTALL by `re.sub`, followed by `json.loads`.
//
// `re.sub` scans left to right. At each position it first tries a block comment: `/*`
// followed by the FIRST `*/` that starts after the opener's `*` (the lazy `.*?` may cross
// newlines). Failing that it tries a line comment: `//` and everything up to, not including,
// the next newline. Failing both it keeps the character and moves on, so an unterminated
// `/*` stays in the text. The removal is purely lexical: comment markers inside JSON string
// literals are removed too. `json.loads` is the parameter `decode`.
module Jsonc {
  import opened Results
  import opened Errors
  import opened Values
  import Text

  // A `*/` starts at index `k`.
  predicate CloseAt(s: string, k: int) {
    0 <= k && k + 1 < |s| && s[k] == '*' && s[k + 1] == '/'
  }

  // A `/*` or a `//` starts at index `k`.
  predicate OpenerAt(s: string, k: int) {
    0 <= k && k + 1 < |s| && s[k] == '/' && (s[k + 1] == '/' || s[k + 1] == '*')
  }

  // No comment opener anywhere in `s`.
  predicate CommentFree(s: string) {
    forall k :: 0 <= k < |s| ==> !OpenerAt(s, k)
  }

  // No `*/` anywhere in `s`.
  predicate NoClose(s: string) {
    forall k :: 0 <= k < |s| ==> !CloseAt(s, k)
  }

  // `a` holds no opener, also when followed by the character `next`.
  predicate PlainBefore(a: string, next: char) {
    forall k :: 0 <= k < |a| ==> !OpenerAt(a + [next], k)
  }

  // The first `*/` starting at or after `from`: what the lazy `.*?\*/` settles on.
  function FindClose(s: string, from: nat): (r: Option<nat>)
    ensures r.Some? ==> from <= r.value && CloseAt(s, r.value)
    decreases |s| - from
  {
    if from + 1 >= |s| then None
    else if CloseAt(s, from) then Some(from)
    else FindClose(s, from + 1)
  }

  // The first newline at or after `from`, or `|s|`: where `[^\n]*` stops.
  function FindNewline(s: string, from: nat): (r: nat)
    requires from <= |s|
    ensures from <= r <= |s|
    ensures r < |s| ==> s[r] == '\n'
    decreases |s| - from
  {
    if from == |s| || s[from] == '\n' then from else FindNewline(s, from + 1)
  }

  // No `*/` is skipped: the one found is the first at or after `from`.
  lemma {:induction false} FindCloseIsFirst(s: string, from: nat)
    ensures FindClose(s, from).Some? ==> forall j :: from <= j < FindClose(s, from).value ==> !CloseAt(s, j)
    ensures FindClose(s, from).None? ==> forall j :: from <= j ==> !CloseAt(s, j)
    decreases |s| - from
  {
    if from + 1 < |s| && !CloseAt(s, from) {
      FindCloseIsFirst(s, from + 1);
    }
  }

  // No newline is skipped: the one found is the first at or after `from`.
  lemma {:induction false} FindNewlineIsFirst(s: string, from: nat)
    requires from <= |s|
    ensures forall j :: from <= j < FindNewline(s, from) ==> s[j] != '\n'
    decreases |s| - from
  {
    if from < |s| && s[from] != '\n' {
      FindNewlineIsFirst(s, from + 1);
    }
  }

  // One step of the scan at the start of `s`: the text kept (nothing for a comment, the
  // first character otherwise) and how many characters the step consumes.
  datatype Step = Step(kept: string, width: nat)

  function Scan(s: string): (t: Step)
    requires |s| > 0
    ensures 1 <= t.width <= |s|
    ensures t.kept == [] || (t.kept == [s[0]] && t.width == 1)
  {
    if |s| >= 2 && s[0] == '/' && s[1] == '*' && FindClose(s, 2).Some? then
      Step([], FindClose(s, 2).value + 2)
    else if |s| >= 2 && s[0] == '/' && s[1] == '/' then
      Step([], FindNewline(s, 2))
    else
      Step([s[0]], 1)
  }

  // A step removes text exactly at a comment opener: a `/*` with a `*/` after it, whose
  // removal ends with that `*/`, or a `//`, whose removal stops at a newline or the end.
  lemma {:induction false} ScanCases(s: string)
    requires |s| > 0
    ensures Scan(s).kept == [] <==> && |s| >= 2 && s[0] == '/'
                                    && (s[1] == '/' || (s[1] == '*' && FindClose(s, 2).Some?))
    ensures Scan(s).kept == [] && s[1] == '*' ==> Scan(s).width >= 4 && CloseAt(s, Scan(s).width - 2)
    ensures Scan(s).kept == [] && s[1] == '/' ==>
              Scan(s).width >= 2 && (Scan(s).width == |s| || s[Scan(s).width] == '\n')
  {
  }

  // The text with every comment removed: scan steps from the left, each resuming where the
  // previous one stopped, keeping what the steps keep.
  function Strip(s: string): (r: string)
    ensures |r| <= |s|
    decreases |s|
  {
    if |s| == 0 then [] else Scan(s).kept + Strip(s[Scan(s).width..])
  }

  // `a` is `b` with some characters deleted.
  predicate IsSubsequence(a: string, b: string)
    decreases |b|
  {
    || |a| == 0
    || (|b| > 0 && ((a[0] == b[0] && IsSubsequence(a[1..], b[1..])) || IsSubsequence(a, b[1..])))
  }

  lemma {:induction false} SubsequenceOfSuffix(a: string, b: string, k: nat)
    requires k <= |b|
    requires IsSubsequence(a, b[k..])
    ensures IsSubsequence(a, b)
    decreases k
  {
    if k > 0 {
      assert b[k..] == b[1..][k - 1..];
      SubsequenceOfSuffix(a, b[1..], k - 1);
    }
  }

  // Stripping only deletes characters: the output is the input with some removed.
  lemma {:induction false} StripIsSubsequence(s: string)
    ensures IsSubsequence(Strip(s), s)
    decreases |s|
  {
    if |s| > 0 {
      var t := Scan(s);
      StripIsSubsequence(s[t.width..]);
      if t.kept == [] {
        assert Strip(s) == Strip(s[t.width..]);
        SubsequenceOfSuffix(Strip(s), s, t.width);
      } else {
        var r := Strip(s);
        assert r[0] == s[0] && r[1..] == Strip(s[1..]);
      }
    }
  }

  // A character that does not open a comment is kept on its own.
  lemma {:induction false} PlainScan(s: string)
    requires |s| > 0 && !OpenerAt(s, 0)
    ensures Scan(s) == Step([s[0]], 1)
  {
  }

  // Text without comment openers passes through untouched, and stripping resumes
  // after it.
  lemma {:induction false} StripPlainPrefix(a: string, rest: string)
    requires forall k :: 0 <= k < |a| ==> !OpenerAt(a + rest, k)
    ensures Strip(a + rest) == a + Strip(rest)
    decreases |a|
  {
    if |a| > 0 {
      var s := a + rest;
      assert !OpenerAt(s, 0);
      PlainScan(s);
      assert s[1..] == a[1..] + rest;
      assert Strip(s) == [a[0]] + Strip(s[1..]);
      assert a == [a[0]] + a[1..];
      forall k | 0 <= k < |a| - 1
        ensures !OpenerAt(a[1..] + rest, k)
      {
        assert !OpenerAt(s, k + 1);
      }
      StripPlainPrefix(a[1..], rest);
      assert [a[0]] + (a[1..] + Strip(rest)) == a + Strip(rest);
    } else {
      assert a + rest == rest;
    }
  }

  // Comment-free text is its own stripped form, so decoding it is unaffected.
  lemma {:induction false} StripCommentFree(s: string)
    requires CommentFree(s)
    ensures Strip(s) == s
  {
    assert s + [] == s;
    StripPlainPrefix(s, []);
  }

  // Text containing no `/` at all is returned unchanged.
  lemma {:induction false} StripWithoutSlash(s: string)
    requires forall k :: 0 <= k < |s| ==> s[k] != '/'
    ensures Strip(s) == s
  {
    StripCommentFree(s);
  }

  lemma {:induction false} PlainBeforeSlash(a: string, rest: string)
    requires PlainBefore(a, '/')
    requires |rest| > 0 && rest[0] == '/'
    ensures forall k :: 0 <= k < |a| ==> !OpenerAt(a + rest, k)
  {
    forall k | 0 <= k < |a|
      ensures !OpenerAt(a + rest, k)
    {
      assert !OpenerAt(a + ['/'], k);
      if k + 1 < |a| {
        assert (a + rest)[k + 1] == (a + ['/'])[k + 1];
      } else {
        assert (a + rest)[k + 1] == '/';
      }
    }
  }

  // A block comment ends at the first `*/`, may span newlines, and vanishes entirely.
  lemma {:induction false} StripBlockComment(a: string, c: string, b: string)
    requires PlainBefore(a, '/')
    requires NoClose(c)
    ensures Strip(a + "/*" + c + "*/" + b) == a + Strip(b)
  {
    var rest := "/*" + c + "*/" + b;
    assert a + "/*" + c + "*/" + b == a + rest;
    PlainBeforeSlash(a, rest);
    StripPlainPrefix(a, rest);
    StripAfterBlockComment(c, b);
  }

  // Stripping a leading block comment resumes right after its `*/`.
  lemma {:induction false} StripAfterBlockComment(c: string, b: string)
    requires NoClose(c)
    ensures Strip("/*" + c + "*/" + b) == Strip(b)
  {
    BlockCommentScan(c, b);
    assert Strip("/*" + c + "*/" + b) == [] + Strip(b);
  }

  // The first `*/` at or after `from` is the one at `e`.
  lemma {:induction false} FirstClose(s: string, from: nat, e: nat)
    requires from <= e && CloseAt(s, e)
    requires forall j :: from <= j < e ==> !CloseAt(s, j)
    ensures FindClose(s, from) == Some(e)
  {
    FindCloseIsFirst(s, from);
  }

  // A block comment whose body holds no `*/` is one step of the scan.
  lemma {:induction false} BlockCommentScan(c: string, b: string)
    requires NoClose(c)
    ensures Scan("/*" + c + "*/" + b) == Step([], |c| + 4)
    ensures ("/*" + c + "*/" + b)[|c| + 4..] == b
  {
    var rest := "/*" + c + "*/" + b;
    var e := 2 + |c|;
    assert CloseAt(rest, e);
    forall j | 2 <= j < e
      ensures !CloseAt(rest, j)
    {
      if j + 1 < e {
        assert !CloseAt(c, j - 2);
      }
    }
    FirstClose(rest, 2, e);
  }

  // In `"//" + c + ...` with no newline in `c`, the line comment ends right after `c`.
  lemma {:induction false} NewlineAfter(s: string, c: string)
    requires |s| >= 2 + |c| && s[2..2 + |c|] == c
    requires forall k :: 0 <= k < |c| ==> c[k] != '\n'
    requires |s| > 2 + |c| ==> s[2 + |c|] == '\n'
    ensures FindNewline(s, 2) == 2 + |c|
  {
    FindNewlineIsFirst(s, 2);
  }

  // A line comment whose text holds no newline is one step of the scan.
  lemma {:induction false} LineCommentScan(c: string, tail: string)
    requires forall k :: 0 <= k < |c| ==> c[k] != '\n'
    requires |tail| > 0 ==> tail[0] == '\n'
    ensures Scan("//" + c + tail) == Step([], |c| + 2)
    ensures ("//" + c + tail)[|c| + 2..] == tail
  {
    NewlineAfter("//" + c + tail, c);
  }

  // Stripping a leading line comment resumes at its newline.
  lemma {:induction false} StripAfterLineComment(c: string, tail: string)
    requires forall k :: 0 <= k < |c| ==> c[k] != '\n'
    requires |tail| > 0 ==> tail[0] == '\n'
    ensures Strip("//" + c + tail) == Strip(tail)
  {
    LineCommentScan(c, tail);
    assert Strip("//" + c + tail) == [] + Strip(tail);
  }

  // A newline is never part of a comment opener and is kept.
  lemma {:induction false} StripKeepsNewline(b: string)
    ensures Strip("\n" + b) == "\n" + Strip(b)
  {
    var nb := "\n" + b;
    PlainScan(nb);
    assert nb[1..] == b;
  }

  // A line comment runs up to the newline and keeps it.
  lemma {:induction false} StripLineComment(a: string, c: string, b: string)
    requires PlainBefore(a, '/')
    requires forall k :: 0 <= k < |c| ==> c[k] != '\n'
    ensures Strip(a + "//" + c + "\n" + b) == a + "\n" + Strip(b)
  {
    var nb := "\n" + b;
    var rest := "//" + c + nb;
    assert a + "//" + c + "\n" + b == a + rest;
    PlainBeforeSlash(a, rest);
    StripPlainPrefix(a, rest);
    StripAfterLineComment(c, nb);
    StripKeepsNewline(b);
    assert a + ("\n" + Strip(b)) == a + "\n" + Strip(b);
  }

  // A line comment without a following newline runs to the end of the text.
  lemma {:induction false} StripTrailingLineComment(a: string, c: string)
    requires PlainBefore(a, '/')
    requires forall k :: 0 <= k < |c| ==> c[k] != '\n'
    ensures Strip(a + "//" + c) == a
  {
    var rest := "//" + c + "";
    assert a + "//" + c == a + rest;
    PlainBeforeSlash(a, rest);
    StripPlainPrefix(a, rest);
    StripAfterLineComment(c, "");
    assert a + [] == a;
  }

  // `/*` with no `*/` after it opens no comment: it is kept, and stripping goes on in the
  // text after it.
  lemma {:induction false} UnterminatedBlockKept(c: string)
    requires NoClose(c)
    ensures Strip("/*" + c) == "/*" + Strip(c)
  {
    var rest := "/*" + c;
    forall j | 2 <= j
      ensures !CloseAt(rest, j)
    {
      assert !CloseAt(c, j - 2);
    }
    FindCloseIsFirst(rest, 2);
    assert Scan(rest) == Step("/", 1);
    var sc := "*" + c;
    assert rest[1..] == sc;
    assert Scan(sc) == Step("*", 1);
    assert sc[1..] == c;
  }

  // A `/*` with no `*/` after it is kept; the text after it is stripped as usual.
  lemma {:induction false} StripUnterminatedBlock(a: string, c: string)
    requires PlainBefore(a, '/')
    requires NoClose(c)
    ensures Strip(a + "/*" + c) == a + "/*" + Strip(c)
  {
    var open := "/*";
    var rest := open + c;
    Text.ConcatAssoc(a, open, c);
    PlainBeforeSlash(a, rest);
    StripPlainPrefix(a, rest);
    UnterminatedBlockKept(c);
    Text.ConcatAssoc(a, open, Strip(c));
  }

  // Inside an unterminated block a line comment still counts: `/* x // y` keeps `/* x `.
  lemma {:induction false} LineCommentInsideUnterminatedBlock(x: string, y: string)
    requires PlainBefore(x, '/')
    requires NoClose(x + "//" + y)
    requires forall k :: 0 <= k < |y| ==> y[k] != '\n'
    ensures Strip("/*" + x + "//" + y) == "/*" + x
  {
    var c := x + "//" + y;
    StripUnterminatedBlock("", c);
    assert "" + "/*" == "/*";
    Text.ConcatAssoc("/*", x + "//", y);
    Text.ConcatAssoc("/*", x, "//");
    StripTrailingLineComment(x, y);
  }

  // The removal is lexical: the `//` of a URL inside a JSON string starts a comment,
  // which also swallows the closing quote.
  lemma {:induction false} StripCutsUrlInString()
    ensures Strip("{\"url\": \"http://cam\"}") == "{\"url\": \"http:"
  {
    var a := "{\"url\": \"http:";
    var c := "cam\"}";
    assert a + "//" + c == "{\"url\": \"http://cam\"}";
    StripTrailingLineComment(a, c);
  }

  // `load_jsonc(text, is_file=False)`: the decoder sees the stripped text.
  function LoadJsonc(text: string, decode: string -> Option<Value>): (r: Result<Value, Error>)
    ensures r.Ok? <==> decode(Strip(text)).Some?
    ensures r.Ok? ==> r.value == decode(Strip(text)).value
    ensures r.Err? ==> r.error == DecodeError
  {
    match decode(Strip(text))
    case Some(v) => Ok(v)
    case None => Err(DecodeError)
  }

  // Decoding commented text is decoding the raw text whenever it holds no comment opener.
  lemma {:induction false} LoadJsoncCommentFree(text: string, decode: string -> Option<Value>)
    requires CommentFree(text)
    ensures LoadJsonc(text, decode) == (match decode(text)
                                        case Some(v) => Ok(v)
                                        case None => Err(DecodeError))
  {
    StripCommentFree(text);
  }

  // `load_jsonc(path)`: the file system is the map `files` from path to contents.
  function LoadJsoncFile(path: string, files: map<string, string>,
                         decode: string -> Option<Value>): (r: Result<Value, Error>)
    ensures path !in files ==> r == Err(SourceNotFound(path))
    ensures path in files ==> r == LoadJsonc(files[path], decode)
  {
    if path in files then LoadJsonc(files[path], decode) else Err(SourceNotFound(path))
  }
}

