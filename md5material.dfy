/**
 * org.rajawali3d.loader.md5.LoaderMD5Material: reads an MTR material file, whose first line
 * names the material and whose later lines are `key value` pairs, and configures a Material
 * from the diffuse, specular, normal and ambient maps it names.
 *
 * A file is given by its lines; the directory it lies in, the set of texture files that
 * exist and the random identifiers cleanName draws are parameters.
 */
module MD5Material {
  import opened Wrappers

  const AmbientMap := "qer_editorimage"
  const SpecularMap := "specularmap"
  const DiffuseMap := "diffusemap"
  const NormalMap := "bumpmap"
  const TexPrefix := "TEX_"

  // ---------------------------------------------------------------------------------------
  // java.lang.String.trim and String.split on a run of delimiters
  // ---------------------------------------------------------------------------------------

  /** String.trim removes leading and trailing characters up to U+0020. */
  predicate IsTrimmed(c: char) {
    c <= ' '
  }

  /** `s` without its leading characters up to U+0020. */
  function TrimStart(s: string): (r: string)
    ensures |r| <= |s| && (r == [] || !IsTrimmed(r[0]))
    ensures s != [] && !IsTrimmed(s[0]) ==> r == s
  {
    if s != [] && IsTrimmed(s[0]) then TrimStart(s[1..]) else s
  }

  /** TrimStart keeps a suffix of `s` and cuts only characters up to U+0020. */
  lemma {:induction false} TrimStartCuts(s: string)
    ensures s[|s| - |TrimStart(s)|..] == TrimStart(s)
    ensures forall k :: 0 <= k < |s| - |TrimStart(s)| ==> IsTrimmed(s[k])
  {
    if s != [] && IsTrimmed(s[0]) {
      TrimStartCuts(s[1..]);
      assert s[1..][|s| - 1 - |TrimStart(s)|..] == s[|s| - |TrimStart(s)|..];
      forall k | 1 <= k < |s| - |TrimStart(s)|
        ensures IsTrimmed(s[k])
      {
        assert s[k] == s[1..][k - 1];
      }
    }
  }

  /** `s` without its trailing characters up to U+0020. */
  function TrimEnd(s: string): (r: string)
    ensures |r| <= |s| && r == s[..|r|]
    ensures r == [] || !IsTrimmed(r[|r| - 1])
  {
    if s != [] && IsTrimmed(s[|s| - 1]) then TrimEnd(s[..|s| - 1]) else s
  }

  /** TrimEnd cuts only characters up to U+0020. */
  lemma {:induction false} TrimEndCuts(s: string)
    ensures forall k :: |TrimEnd(s)| <= k < |s| ==> IsTrimmed(s[k])
  {
    if s != [] && IsTrimmed(s[|s| - 1]) {
      var init := s[..|s| - 1];
      TrimEndCuts(init);
      forall k | |TrimEnd(s)| <= k < |s| - 1
        ensures IsTrimmed(s[k])
      {
        assert s[k] == init[k];
      }
    }
  }

  /** The ends of `s`, if any, are not trimmed away. */
  predicate HasSolidEnds(s: string) {
    s == [] || (!IsTrimmed(s[0]) && !IsTrimmed(s[|s| - 1]))
  }

  /** `r` is `s` from index `i` on, with only characters up to U+0020 cut from either end. */
  predicate TrimmedFrom(s: string, r: string, i: nat) {
    i + |r| <= |s| && r == s[i..i + |r|] &&
    (forall k :: 0 <= k < i ==> IsTrimmed(s[k])) &&
    (forall k :: i + |r| <= k < |s| ==> IsTrimmed(s[k]))
  }

  /** String.trim. */
  function Trim(s: string): (r: string)
    ensures HasSolidEnds(r)
    ensures HasSolidEnds(s) ==> r == s
  {
    TrimEnd(TrimStart(s))
  }

  /** String.trim cuts only characters up to U+0020, and only from the two ends of `s`. */
  lemma TrimIsMiddle(s: string)
    ensures exists i :: TrimmedFrom(s, Trim(s), i)
  {
    var t := TrimStart(s);
    TrimStartCuts(s);
    TrimEndCuts(t);
    SliceOfSlice(s, t, TrimEnd(t));
    assert Trim(s) == TrimEnd(t);
    assert TrimmedFrom(s, Trim(s), |s| - |t|);
  }

  /** A prefix `r` of a suffix `t` of `s`, each cut only of trimmed characters, is a trimmed middle. */
  lemma SliceOfSlice(s: string, t: string, r: string)
    requires |r| <= |t| <= |s| && t == s[|s| - |t|..] && r == t[..|r|]
    requires forall k :: 0 <= k < |s| - |t| ==> IsTrimmed(s[k])
    requires forall k :: |r| <= k < |t| ==> IsTrimmed(t[k])
    ensures TrimmedFrom(s, r, |s| - |t|)
  {
    var i := |s| - |t|;
    assert r == s[i..i + |r|];
    forall k | i + |r| <= k < |s|
      ensures IsTrimmed(s[k])
    {
      assert s[k] == t[k - i];
    }
  }

  /** The regular-expression character class `\s`. */
  predicate IsSpace(c: char) {
    c == ' ' || c == '\t' || c == '\n' || c == '\U{000B}' || c == '\U{000C}' || c == '\r'
  }

  /** The delimiter runs the loader splits on: `\s+`, `[\s\/]+`, and the `/` of file paths. */
  datatype Delims = Blanks | BlanksOrSlashes | Slashes

  predicate IsDelim(d: Delims, c: char) {
    match d
    case Blanks => IsSpace(c)
    case BlanksOrSlashes => IsSpace(c) || c == '/'
    case Slashes => c == '/'
  }

  /** A non-empty string without delimiters. */
  predicate IsToken(d: Delims, w: string) {
    |w| > 0 && forall k :: 0 <= k < |w| ==> !IsDelim(d, w[k])
  }

  predicate NoDelim(d: Delims, s: string) {
    forall k :: 0 <= k < |s| ==> !IsDelim(d, s[k])
  }

  /** The length of the token at the start of `s`. */
  function TokenLength(d: Delims, s: string): (n: nat)
    requires |s| > 0 && !IsDelim(d, s[0])
    ensures 0 < n <= |s| && IsToken(d, s[..n])
    ensures n < |s| ==> IsDelim(d, s[n])
  {
    if |s| == 1 || IsDelim(d, s[1]) then 1
    else
      var n := 1 + TokenLength(d, s[1..]);
      assert s[..n] == [s[0]] + s[1..][..n - 1];
      n
  }

  /** The maximal runs of non-delimiters of `s`, in order. */
  function Tokens(d: Delims, s: string): (r: seq<string>)
    ensures forall i :: 0 <= i < |r| ==> IsToken(d, r[i])
    decreases |s|
  {
    if s == [] then []
    else if IsDelim(d, s[0]) then Tokens(d, s[1..])
    else
      var n := TokenLength(d, s);
      [s[..n]] + Tokens(d, s[n..])
  }

  /**
   * String.split with a pattern matching a run of delimiters: the whole string when it holds
   * no delimiter; otherwise the tokens, preceded by an empty string when `s` starts with a
   * delimiter, and nothing at all when every piece is empty (trailing empty strings are
   * dropped).
   */
  function Split(d: Delims, s: string): (r: seq<string>)
    ensures NoDelim(d, s) ==> r == [s]
    ensures s != [] && !IsDelim(d, s[0]) ==> r == Tokens(d, s)
    ensures s != [] && IsDelim(d, s[0]) ==> r == (if Tokens(d, s) == [] then [] else [""] + Tokens(d, s))
  {
    if NoDelim(d, s) then
      SingleToken(d, s);
      [s]
    else
      var w := Tokens(d, s);
      if w == [] then [] else (if IsDelim(d, s[0]) then [""] else []) + w
  }

  /** A string without delimiters is a single token. */
  lemma SingleToken(d: Delims, s: string)
    requires NoDelim(d, s)
    ensures s != [] ==> Tokens(d, s) == [s]
  {
    if s != [] {
      TokensOfToken(d, s, []);
      assert s + [] == s;
    }
  }

  /** `ws` joined with the delimiter `c` between neighbours. */
  function Join(ws: seq<string>, c: char): string {
    if ws == [] then [] else if |ws| == 1 then ws[0] else ws[0] + [c] + Join(ws[1..], c)
  }

  /** The token at the front of `w + tail` is `w` when a delimiter or nothing follows it. */
  lemma TokensOfToken(d: Delims, w: string, tail: string)
    requires IsToken(d, w) && (tail == [] || IsDelim(d, tail[0]))
    ensures Tokens(d, w + tail) == [w] + Tokens(d, tail)
  {
    var s := w + tail;
    assert s[0] == w[0];
    TokenLengthOf(d, w, tail);
    assert s[..|w|] == w && s[|w|..] == tail;
  }

  /** The token at the front of `w + tail` ends where `w` does. */
  lemma {:induction false} TokenLengthOf(d: Delims, w: string, tail: string)
    requires IsToken(d, w) && (tail == [] || IsDelim(d, tail[0]))
    ensures |w + tail| > 0 && !IsDelim(d, (w + tail)[0])
    ensures TokenLength(d, w + tail) == |w|
  {
    var s := w + tail;
    assert s[0] == w[0];
    if |w| == 1 {
      assert |s| == 1 || s[1] == tail[0];
    } else {
      assert s[1] == w[1];
      assert s[1..] == w[1..] + tail;
      assert IsToken(d, w[1..]) by {
        forall k | 0 <= k < |w| - 1 ensures !IsDelim(d, w[1..][k]) {
          assert w[1..][k] == w[k + 1];
        }
      }
      TokenLengthOf(d, w[1..], tail);
    }
  }

  /** A leading delimiter is skipped. */
  lemma TokensSkip(d: Delims, c: char, rest: string)
    requires IsDelim(d, c)
    ensures Tokens(d, [c] + rest) == Tokens(d, rest)
  {
    assert ([c] + rest)[1..] == rest;
  }

  /** Splitting a join of tokens gives the tokens back. */
  lemma {:induction false} TokensOfJoin(d: Delims, ws: seq<string>, c: char)
    requires IsDelim(d, c)
    requires forall i :: 0 <= i < |ws| ==> IsToken(d, ws[i])
    ensures Tokens(d, Join(ws, c)) == ws
  {
    if ws == [] {
    } else if |ws| == 1 {
      TokensOfToken(d, ws[0], []);
      assert ws[0] + [] == ws[0];
    } else {
      var rest := Join(ws[1..], c);
      assert Join(ws, c) == ws[0] + ([c] + rest);
      TokensThenDelim(d, ws[0], c, rest);
      TokensOfJoin(d, ws[1..], c);
      assert ws == [ws[0]] + ws[1..];
    }
  }

  /** A token followed by a delimiter is split off, and the delimiter is skipped. */
  lemma TokensThenDelim(d: Delims, w: string, c: char, rest: string)
    requires IsToken(d, w) && IsDelim(d, c)
    ensures Tokens(d, w + ([c] + rest)) == [w] + Tokens(d, rest)
  {
    TokensOfToken(d, w, [c] + rest);
    TokensSkip(d, c, rest);
  }

  /** The first and last characters of a join of non-empty strings. */
  lemma {:induction false} JoinEnds(ws: seq<string>, c: char)
    requires |ws| > 0 && forall i :: 0 <= i < |ws| ==> |ws[i]| > 0
    ensures |Join(ws, c)| > 0
    ensures Join(ws, c)[0] == ws[0][0]
    ensures Join(ws, c)[|Join(ws, c)| - 1] == ws[|ws| - 1][|ws[|ws| - 1]| - 1]
  {
    if |ws| > 1 {
      JoinEnds(ws[1..], c);
    }
  }

  // ---------------------------------------------------------------------------------------
  // parse, lines 75-90: the material name and the property map
  // ---------------------------------------------------------------------------------------

  /** Lines 75-81: the last token of the trimmed first line split on `[\s\/]+`, if there is one. */
  function MaterialName(firstLine: string): (r: Option<string>)
    ensures r.Some? ==> NoDelim(BlanksOrSlashes, r.value)
    ensures Trim(firstLine) == [] ==> r == Some([])
  {
    var tokens := Split(BlanksOrSlashes, Trim(firstLine));
    if |tokens| > 0 then Some(tokens[|tokens| - 1]) else None
  }

  /** A word of an MTR file: printable, without blanks or slashes. */
  predicate IsName(w: string) {
    |w| > 0 && forall k :: 0 <= k < |w| ==> !IsTrimmed(w[k]) && w[k] != '/'
  }

  /** Names hold no blanks and no slashes. */
  lemma NamesAreTokens(d: Delims, ws: seq<string>)
    requires forall i :: 0 <= i < |ws| ==> IsName(ws[i])
    ensures forall i :: 0 <= i < |ws| ==> IsToken(d, ws[i])
  {
    forall i | 0 <= i < |ws| ensures IsToken(d, ws[i]) {
      assert IsName(ws[i]);
    }
  }

  /** A trimmed join of names is unchanged by Trim. */
  lemma TrimJoin(ws: seq<string>)
    requires |ws| > 0 && forall i :: 0 <= i < |ws| ==> IsName(ws[i])
    ensures Trim(Join(ws, ' ')) == Join(ws, ' ')
  {
    JoinEnds(ws, ' ');
    var s := Join(ws, ' ');
    assert !IsTrimmed(ws[|ws| - 1][|ws[|ws| - 1]| - 1]);
    assert TrimStart(s) == s;
  }

  /** A line of names, one blank between neighbours, splits into the names. */
  lemma SplitJoin(d: Delims, ws: seq<string>)
    requires |ws| > 0 && forall i :: 0 <= i < |ws| ==> IsName(ws[i])
    requires d != Slashes
    ensures Split(d, Join(ws, ' ')) == ws
  {
    var s := Join(ws, ' ');
    JoinEnds(ws, ' ');
    var c := s[0];
    assert c == ws[0][0];
    assert !IsDelim(d, c) by {
      assert IsName(ws[0]);
    }
    NamesAreTokens(d, ws);
    TokensOfJoin(d, ws, ' ');
  }

  /** The first line's name is its last word, whatever words come before it. */
  lemma MaterialNameIsLastWord(ws: seq<string>)
    requires |ws| > 0 && forall i :: 0 <= i < |ws| ==> IsName(ws[i])
    ensures MaterialName(Join(ws, ' ')) == Some(ws[|ws| - 1])
  {
    TrimJoin(ws);
    SplitJoin(BlanksOrSlashes, ws);
  }

  /**
   * Lines 78-81 in terms of the tokens of the trimmed line: the name is the last token; a blank
   * line gives the empty name, and a line of slashes only gives none.
   */
  lemma MaterialNameIsLastToken(line: string)
    ensures var t := Trim(line); var w := Tokens(BlanksOrSlashes, t);
      (w != [] ==> MaterialName(line) == Some(w[|w| - 1])) &&
      (t == [] ==> MaterialName(line) == Some([])) &&
      (t != [] && w == [] ==> MaterialName(line) == None)
  {
    var t := Trim(line);
    if NoDelim(BlanksOrSlashes, t) {
      SingleToken(BlanksOrSlashes, t);
    } else if t != [] && Tokens(BlanksOrSlashes, t) == [] {
      assert IsDelim(BlanksOrSlashes, t[0]);
    }
  }

  /** Line 80: the `material` keyword in front of the name is optional. */
  lemma MaterialKeywordOptional(name: string)
    requires IsName(name)
    ensures MaterialName("material " + name) == MaterialName(name) == Some(name)
  {
    MaterialNameIsLastWord(["material", name]);
    assert Join(["material", name], ' ') == "material " + name;
    MaterialNameIsLastWord([name]);
  }

  /** Lines 86-89: the key and value of a later line, when it has at least two tokens. */
  function LineEntry(line: string): Option<(string, string)> {
    var t := Trim(line);
    var tokens := Split(Blanks, t);
    if |tokens| > 1 then Some((tokens[0], tokens[1])) else None
  }

  /** Lines 86-89: a line with two or more tokens maps its first to its second; others add nothing. */
  lemma LineEntryIsFirstTwoTokens(line: string)
    ensures var w := Tokens(Blanks, Trim(line));
      (LineEntry(line).Some? <==> |w| >= 2) &&
      (|w| >= 2 ==> LineEntry(line) == Some((w[0], w[1])))
  {
    var t := Trim(line);
    if t != [] {
      assert !IsDelim(Blanks, t[0]);
    }
  }

  /** A line of two or more names maps its first to its second; further names are ignored. */
  lemma LineEntryOfWords(ws: seq<string>)
    requires |ws| >= 2 && forall i :: 0 <= i < |ws| ==> IsName(ws[i])
    ensures LineEntry(Join(ws, ' ')) == Some((ws[0], ws[1]))
  {
    TrimJoin(ws);
    SplitJoin(Blanks, ws);
  }

  /** The entry of every line, in order. */
  function LineEntries(lines: seq<string>): (r: seq<Option<(string, string)>>)
    ensures |r| == |lines|
  {
    if lines == [] then [] else LineEntries(lines[..|lines| - 1]) + [LineEntry(lines[|lines| - 1])]
  }

  /** Entry `i` is the entry of line `i`. */
  lemma {:induction false} LineEntriesAt(lines: seq<string>)
    ensures forall i :: 0 <= i < |lines| ==> LineEntries(lines)[i] == LineEntry(lines[i])
  {
    if lines != [] {
      var init := lines[..|lines| - 1];
      var es := LineEntries(init);
      assert LineEntries(lines) == es + [LineEntry(lines[|lines| - 1])];
      LineEntriesAt(init);
      forall i | 0 <= i < |lines|
        ensures LineEntries(lines)[i] == LineEntry(lines[i])
      {
        if i < |init| {
          assert lines[i] == init[i];
          assert es[i] == LineEntry(init[i]);
        }
      }
    }
  }

  /** props.put for an entry, if the line had one. */
  function Put(props: map<string, string>, e: Option<(string, string)>): map<string, string> {
    match e
    case Some(kv) => props[kv.0 := kv.1]
    case None => props
  }

  /** The property map lines 84-90 build from the lines' entries. */
  function PropsOf(es: seq<Option<(string, string)>>): map<string, string> {
    if es == [] then map[] else Put(PropsOf(es[..|es| - 1]), es[|es| - 1])
  }

  /** The entry has the key `key`. */
  predicate HasKey(e: Option<(string, string)>, key: string) {
    e.Some? && e.value.0 == key
  }

  /** Some entry has the key `key`. */
  ghost predicate Mentions(es: seq<Option<(string, string)>>, key: string) {
    exists i :: 0 <= i < |es| && HasKey(es[i], key)
  }

  /** Entry `i` is the last entry with the key `key`. */
  ghost predicate LastWithKey(es: seq<Option<(string, string)>>, key: string, i: int) {
    0 <= i < |es| && HasKey(es[i], key) &&
    forall j :: i < j < |es| ==> !HasKey(es[j], key)
  }

  /** Line 89: a key is present iff some line has it, and its value is that of the last such line. */
  lemma {:induction false} PropsLastWins(es: seq<Option<(string, string)>>, key: string)
    ensures key in PropsOf(es) <==> Mentions(es, key)
    ensures forall i :: LastWithKey(es, key, i) ==> key in PropsOf(es) && PropsOf(es)[key] == es[i].value.1
  {
    if es == [] {
      return;
    }
    var n := |es| - 1;
    var prefix := es[..n];
    var props := PropsOf(prefix);
    assert PropsOf(es) == Put(props, es[n]);
    PropsLastWins(prefix, key);
    if HasKey(es[n], key) {
      assert key in PropsOf(es) && PropsOf(es)[key] == es[n].value.1;
      assert Mentions(es, key);
      forall i | LastWithKey(es, key, i)
        ensures i == n
      {
      }
    } else {
      assert key in PropsOf(es) <==> key in props;
      assert key in props ==> PropsOf(es)[key] == props[key];
      assert Mentions(es, key) <==> Mentions(prefix, key) by {
        if Mentions(es, key) {
          var i :| 0 <= i < |es| && HasKey(es[i], key);
          assert i < n && prefix[i] == es[i];
        }
        if Mentions(prefix, key) {
          var i :| 0 <= i < n && HasKey(prefix[i], key);
          assert prefix[i] == es[i];
        }
      }
      forall i | LastWithKey(es, key, i)
        ensures LastWithKey(prefix, key, i)
      {
        assert i < n;
        assert forall j :: i < j < n ==> prefix[j] == es[j];
      }
    }
  }

  /** Reading one more line puts its entry. */
  lemma PropsSnoc(es: seq<Option<(string, string)>>, e: Option<(string, string)>)
    ensures PropsOf(es + [e]) == Put(PropsOf(es), e)
  {
    assert (es + [e])[..|es|] == es;
  }

  /** props.put as lines 86-89 write it. */
  lemma PutLine(props: map<string, string>, line: string)
    ensures var tokens := Split(Blanks, Trim(line));
      Put(props, LineEntry(line)) == if |tokens| > 1 then props[tokens[0] := tokens[1]] else props
  {
  }

  /** One more line adds its entry. */
  lemma LineEntriesSnoc(lines: seq<string>, i: nat)
    requires 1 <= i < |lines|
    ensures LineEntries(lines[1..i + 1]) == LineEntries(lines[1..i]) + [LineEntry(lines[i])]
  {
    assert lines[1..i + 1][..i - 1] == lines[1..i];
  }

  /** Lines 84-90: the property map of the lines after the first. */
  method ReadProps(lines: seq<string>) returns (props: map<string, string>)
    requires |lines| > 0
    ensures props == PropsOf(LineEntries(lines[1..]))
  {
    props := map[];
    ghost var es: seq<Option<(string, string)>> := [];
    var i := 1;
    while i < |lines|
      invariant 1 <= i <= |lines|
      invariant es == LineEntries(lines[1..i])
      invariant props == PropsOf(es)
    {
      ghost var before := props;
      var tokens := Split(Blanks, Trim(lines[i]));
      if |tokens| > 1 {
        props := props[tokens[0] := tokens[1]];
      }
      PutLine(before, lines[i]);
      PropsSnoc(es, LineEntry(lines[i]));
      LineEntriesSnoc(lines, i);
      es := es + [LineEntry(lines[i])];
      i := i + 1;
    }
    assert lines[1..i] == lines[1..];
  }

  // ---------------------------------------------------------------------------------------
  // parse, lines 100-121: precedence and texture kinds
  // ---------------------------------------------------------------------------------------

  /** Lines 100-102: the diffuse map takes precedence over the ambient one. */
  function Entries(props: map<string, string>): (r: map<string, string>)
    ensures forall k :: k in r <==> k in props && !(k == AmbientMap && DiffuseMap in props)
    ensures forall k :: k in r ==> r[k] == props[k]
  {
    if DiffuseMap in props then props - {AmbientMap} else props
  }

  datatype TextureKind = PlainTexture | SpecularMapTexture | NormalMapTexture

  /** Lines 117-121: the texture class a key selects, None (null) for any other key. */
  function TextureFor(key: string): (r: Option<TextureKind>)
    ensures r == Some(PlainTexture) <==> key == DiffuseMap || key == AmbientMap
    ensures r == Some(SpecularMapTexture) <==> key == SpecularMap
    ensures r == Some(NormalMapTexture) <==> key == NormalMap
  {
    if key == DiffuseMap then Some(PlainTexture)
    else if key == SpecularMap then Some(SpecularMapTexture)
    else if key == NormalMap then Some(NormalMapTexture)
    else if key == AmbientMap then Some(PlainTexture)
    else None
  }

  // ---------------------------------------------------------------------------------------
  // cleanName, lines 145-156
  // ---------------------------------------------------------------------------------------

  /** The class `\w`: ASCII letters, digits and `_`. */
  predicate IsWordChar(c: char) {
    ('a' <= c <= 'z') || ('A' <= c <= 'Z') || ('0' <= c <= '9') || c == '_'
  }

  predicate IsDigit(c: char) {
    '0' <= c <= '9'
  }

  predicate AllWordChars(s: string) {
    forall k :: 0 <= k < |s| ==> IsWordChar(s[k])
  }

  /** replaceAll("\\W", ""): the word characters of `s`, in order. */
  function StripNonWord(s: string): (r: string)
    ensures AllWordChars(r) && |r| <= |s|
    ensures AllWordChars(s) ==> r == s
  {
    if s == [] then []
    else (if IsWordChar(s[0]) then [s[0]] else []) + StripNonWord(s[1..])
  }

  /** A single character is kept iff it is a word character. */
  lemma StripNonWordChar(c: char)
    ensures StripNonWord([c]) == if IsWordChar(c) then [c] else []
  {
    assert [c][1..] == [];
  }

  /** Stripping works character by character: together with StripNonWordChar, the result is
   *  exactly the word characters of `s`, in their order. */
  lemma {:induction false} StripNonWordAppend(a: string, b: string)
    ensures StripNonWord(a + b) == StripNonWord(a) + StripNonWord(b)
  {
    if a != [] {
      assert (a + b)[0] == a[0] && (a + b)[1..] == a[1..] + b;
      StripNonWordAppend(a[1..], b);
    } else {
      assert a + b == b;
    }
  }

  /** A name cleanName keeps as it is: word characters only, not empty, no leading digit. */
  predicate IsCleanName(s: string) {
    |s| > 0 && AllWordChars(s) && !IsDigit(s[0])
  }

  /** cleanName, with the UUID it may draw given as `uuid`. */
  function CleanName(name: string, uuid: string): (r: string)
    ensures IsCleanName(r)
    ensures IsCleanName(StripNonWord(name)) ==> r == StripNonWord(name)
    ensures !IsCleanName(StripNonWord(name)) ==> r == TexPrefix + StripNonWord(uuid)
  {
    var clean := StripNonWord(name);
    if |clean| == 0 || IsDigit(clean[0]) then
      var r := TexPrefix + StripNonWord(uuid);
      assert r[0] == 'T';
      r
    else clean
  }

  /** A clean name is cleaned to itself. */
  lemma CleanNameIdempotent(name: string, uuid: string, uuid2: string)
    ensures CleanName(CleanName(name, uuid), uuid2) == CleanName(name, uuid)
  {
  }

  // ---------------------------------------------------------------------------------------
  // The material being configured
  // ---------------------------------------------------------------------------------------

  /** A texture as created at lines 117-121: its class, its name and its file. */
  datatype Texture = Texture(kind: TextureKind, name: string, path: string)

  datatype ShadingMethod = Lambert | Phong | OtherMethod

  /** The part of org.rajawali3d.materials.Material that parse changes. */
  class Material {
    /** Every argument addTexture has received, null (None) included. */
    var textures: seq<Option<Texture>>
    var diffuseMethod: Option<ShadingMethod>
    var specularMethod: Option<ShadingMethod>
    var lightingEnabled: bool
    var colorInfluence: real

    constructor()
      ensures textures == [] && diffuseMethod == None && specularMethod == None
    {
      textures := [];
      diffuseMethod := None;
      specularMethod := None;
    }

    method AddTexture(tex: Option<Texture>)
      modifies this`textures
      ensures textures == old(textures) + [tex]
    {
      textures := textures + [tex];
    }

    method SetDiffuseMethod(m: ShadingMethod)
      modifies this`diffuseMethod
      ensures diffuseMethod == Some(m)
    {
      diffuseMethod := Some(m);
    }

    method SetSpecularMethod(m: ShadingMethod)
      modifies this`specularMethod
      ensures specularMethod == Some(m)
    {
      specularMethod := Some(m);
    }

    method EnableLighting(enable: bool)
      modifies this`lightingEnabled
      ensures lightingEnabled == enable
    {
      lightingEnabled := enable;
    }

    method SetColorInfluence(influence: real)
      modifies this`colorInfluence
      ensures colorInfluence == influence
    {
      colorInfluence := influence;
    }
  }

  // ---------------------------------------------------------------------------------------
  // parse, lines 104-131: the textures
  // ---------------------------------------------------------------------------------------

  /** Line 106: new File(mtrFile.getParentFile(), value). */
  function TexturePath(dir: string, value: string): string {
    dir + "/" + value
  }

  /** File.getName: the last non-empty component of a path. */
  function FileName(path: string): (r: string)
    ensures NoDelim(Slashes, r)
  {
    var parts := Tokens(Slashes, path);
    if parts == [] then "" else parts[|parts| - 1]
  }

  /** The token at the front of `s` is unchanged by what follows a delimiter in `s`. */
  lemma {:induction false} TokenLengthExtend(d: Delims, s: string, t: string)
    requires |s| > 0 && !IsDelim(d, s[0]) && TokenLength(d, s) < |s|
    ensures |s + t| > 0 && !IsDelim(d, (s + t)[0])
    ensures TokenLength(d, s + t) == TokenLength(d, s)
  {
    assert (s + t)[0] == s[0] && (s + t)[1] == s[1];
    if !IsDelim(d, s[1]) {
      assert (s + t)[1..] == s[1..] + t;
      TokenLengthExtend(d, s[1..], t);
    }
  }

  /** A token after the last delimiter is the last token. */
  lemma {:induction false} TokensAppend(d: Delims, x: string, c: char, w: string)
    requires IsDelim(d, c) && IsToken(d, w)
    ensures Tokens(d, x + [c] + w) == Tokens(d, x) + [w]
    decreases |x|, 1
  {
    var s := x + [c] + w;
    if x == [] {
      assert s == [c] + w;
      TokensSkip(d, c, w);
      TokensOfToken(d, w, []);
      assert w + [] == w;
    } else if IsDelim(d, x[0]) {
      assert s[0] == x[0] && s[1..] == x[1..] + [c] + w;
      TokensAppend(d, x[1..], c, w);
    } else {
      TokensAppendAfterToken(d, x, c, w);
    }
  }

  /** The first token of `x + [c] + w` lies within `x` when `x` starts with a token. */
  lemma TokensAppendHead(d: Delims, x: string, c: char, w: string)
    requires IsDelim(d, c) && x != [] && !IsDelim(d, x[0])
    ensures |x + [c]| > 0 && !IsDelim(d, (x + [c])[0])
    ensures TokenLength(d, x + [c]) <= |x|
    ensures Tokens(d, x + [c] + w) ==
      [x[..TokenLength(d, x + [c])]] + Tokens(d, x[TokenLength(d, x + [c])..] + [c] + w)
  {
    var s := x + [c] + w;
    var xc := x + [c];
    assert xc[0] == x[0] && xc[|x|] == c;
    var n := TokenLength(d, xc);
    assert s == xc + w;
    TokenLengthExtend(d, xc, w);
    assert s[..n] == x[..n] && s[n..] == x[n..] + [c] + w;
  }

  /** TokensAppend when `x` starts with a token. */
  lemma {:induction false} TokensAppendAfterToken(d: Delims, x: string, c: char, w: string)
    requires IsDelim(d, c) && IsToken(d, w)
    requires x != [] && !IsDelim(d, x[0])
    ensures Tokens(d, x + [c] + w) == Tokens(d, x) + [w]
    decreases |x|, 0
  {
    TokensAppendHead(d, x, c, w);
    var n := TokenLength(d, x + [c]);
    if n < |x| {
      TokensAppendSplit(d, x, c, n);
      TokensAppend(d, x[n..], c, w);
      var t := Tokens(d, x[n..]);
      assert [x[..n]] + (t + [w]) == ([x[..n]] + t) + [w];
    } else {
      TokensAppendWhole(d, x, c, w);
    }
  }

  /** When the first token of `x + [c]` ends inside `x`, it is also the first token of `x`. */
  lemma TokensAppendSplit(d: Delims, x: string, c: char, n: nat)
    requires IsDelim(d, c) && x != [] && !IsDelim(d, x[0])
    requires |x + [c]| > 0 && !IsDelim(d, (x + [c])[0])
    requires n == TokenLength(d, x + [c]) && n < |x|
    ensures Tokens(d, x) == [x[..n]] + Tokens(d, x[n..])
  {
    var xc := x + [c];
    assert x[n] == xc[n];
    TokenLengthExtend(d, x, [c]);
  }

  /** When all of `x` is the first token, the appended token follows it alone. */
  lemma TokensAppendWhole(d: Delims, x: string, c: char, w: string)
    requires IsDelim(d, c) && IsToken(d, w) && x != [] && !IsDelim(d, x[0])
    requires |x + [c]| > 0 && !IsDelim(d, (x + [c])[0]) && TokenLength(d, x + [c]) == |x|
    ensures [x[..|x|]] + Tokens(d, x[|x|..] + [c] + w) == Tokens(d, x) + [w]
  {
    var xc := x + [c];
    assert xc[..|x|] == x && x[..|x|] == x;
    SingleToken(d, x);
    assert x[|x|..] + [c] + w == [c] + w;
    TokensSkip(d, c, w);
    TokensOfToken(d, w, []);
    assert w + [] == w;
  }

  /** Line 115: a file named by a value without slashes is named by that value. */
  lemma FileNameOfValue(dir: string, value: string)
    requires IsToken(Slashes, value)
    ensures FileName(TexturePath(dir, value)) == value
  {
    assert TexturePath(dir, value) == dir + ['/'] + value;
    TokensAppend(Slashes, dir, '/', value);
  }

  /** Line 115: a value with inner directories, `folder/name`, names its file by the last segment. */
  lemma FileNameOfNestedValue(dir: string, folder: string, name: string)
    requires IsToken(Slashes, name)
    ensures FileName(TexturePath(dir, folder + "/" + name)) == name
  {
    assert TexturePath(dir, folder + "/" + name) == (dir + "/" + folder) + ['/'] + name;
    TokensAppend(Slashes, dir + "/" + folder, '/', name);
  }

  /** Lines 114-121: the texture for `key` made from the file at `path`. */
  function TextureAt(key: string, path: string, uuid: string): (r: Option<Texture>)
    ensures r.Some? <==> TextureFor(key).Some?
    ensures r.Some? ==> r.value.kind == TextureFor(key).value && r.value.path == path && IsCleanName(r.value.name)
  {
    match TextureFor(key)
    case Some(kind) => Some(Texture(kind, CleanName(FileName(path), uuid), path))
    case None => None
  }

  /** What lines 106-130 pass to addTexture for one entry: nothing when its file is missing. */
  function Contribution(key: string, path: string, existing: set<string>, uuid: string): (r: seq<Option<Texture>>)
    ensures |r| <= 1
    ensures r != [] <==> path in existing
  {
    if path in existing then [TextureAt(key, path, uuid)] else []
  }

  /** `order` lists each key of `keys` once: an iteration order of the HashMap. */
  ghost predicate Enumerates(order: seq<string>, keys: set<string>) {
    (forall i, j :: 0 <= i < j < |order| ==> order[i] != order[j]) &&
    (forall k :: k in keys <==> k in order)
  }

  /**
   * What lines 104-131 pass to addTexture when the keys are visited in `order`; a key that is
   * not in the map adds nothing.
   */
  function Added(entries: map<string, string>, order: seq<string>, dir: string,
                 existing: set<string>, uuids: nat -> string): seq<Option<Texture>>
  {
    if order == [] then []
    else
      var n := |order| - 1;
      var key := order[n];
      Added(entries, order[..n], dir, existing, uuids) +
      (if key in entries then Contribution(key, TexturePath(dir, entries[key]), existing, uuids(n)) else [])
  }

  /** Entry `i` of `order` names a texture file that exists. */
  predicate Found(entries: map<string, string>, order: seq<string>, dir: string, existing: set<string>, i: int) {
    0 <= i < |order| && order[i] in entries && TexturePath(dir, entries[order[i]]) in existing
  }

  /** Lines 108-130: every texture passed to addTexture belongs to an entry whose file exists. */
  lemma {:induction false} AddedSound(entries: map<string, string>, order: seq<string>, dir: string,
                                      existing: set<string>, uuids: nat -> string)
    ensures forall t :: t in Added(entries, order, dir, existing, uuids) ==>
      exists i :: Found(entries, order, dir, existing, i) &&
        t == TextureAt(order[i], TexturePath(dir, entries[order[i]]), uuids(i))
  {
    if order == [] {
      return;
    }
    var n := |order| - 1;
    var prefix := order[..n];
    AddedSound(entries, prefix, dir, existing, uuids);
    assert forall i :: 0 <= i < n ==> prefix[i] == order[i];
    assert forall i :: 0 <= i < n ==> (Found(entries, prefix, dir, existing, i) <==> Found(entries, order, dir, existing, i));
  }

  /** Lines 108-130: every entry whose file exists passes its texture to addTexture. */
  lemma {:induction false} AddedComplete(entries: map<string, string>, order: seq<string>, dir: string,
                                         existing: set<string>, uuids: nat -> string)
    ensures forall i :: Found(entries, order, dir, existing, i) ==>
      TextureAt(order[i], TexturePath(dir, entries[order[i]]), uuids(i)) in Added(entries, order, dir, existing, uuids)
  {
    if order == [] {
      return;
    }
    var n := |order| - 1;
    var prefix := order[..n];
    AddedComplete(entries, prefix, dir, existing, uuids);
    assert forall i :: 0 <= i < n ==> prefix[i] == order[i];
    assert forall i :: 0 <= i < n ==> (Found(entries, prefix, dir, existing, i) <==> Found(entries, order, dir, existing, i));
  }

  /** Visiting one more key adds that key's contribution. */
  lemma AddedStep(entries: map<string, string>, order: seq<string>, i: nat, dir: string,
                  existing: set<string>, uuids: nat -> string)
    requires i < |order| && order[i] in entries
    ensures Added(entries, order[..i + 1], dir, existing, uuids) == Added(entries, order[..i], dir, existing, uuids) +
      Contribution(order[i], TexturePath(dir, entries[order[i]]), existing, uuids(i))
  {
    assert order[..i + 1][..i] == order[..i];
  }

  /** Lines 105-130: the texture for one entry of the map, if its file exists. */
  method AddEntry(mat: Material, key: string, value: string, dir: string, existing: set<string>, uuid: string)
    modifies mat`textures
    ensures mat.textures == old(mat.textures) + Contribution(key, TexturePath(dir, value), existing, uuid)
  {
    var path := TexturePath(dir, value);
    if path !in existing {
      return;
    }
    var texName := CleanName(FileName(path), uuid);
    var tex: Option<Texture> := match TextureFor(key)
      case Some(kind) => Some(Texture(kind, texName, path))
      case None => None;
    mat.AddTexture(tex);
  }

  /** `after` is `before` with the textures of `entries` added in some order of its keys. */
  ghost predicate TexturesAdded(before: seq<Option<Texture>>, after: seq<Option<Texture>>,
                                entries: map<string, string>, dir: string, existing: set<string>,
                                uuids: nat -> string) {
    exists order :: Enumerates(order, entries.Keys) &&
      after == before + Added(entries, order, dir, existing, uuids)
  }

  /** The order in which the HashMap's entry set yields `keys`: each key once, in some order. */
  method IterationOrder(keys: set<string>) returns (order: seq<string>)
    ensures Enumerates(order, keys)
  {
    order := [];
    var remaining := keys;
    while remaining != {}
      invariant forall i, j :: 0 <= i < j < |order| ==> order[i] != order[j]
      invariant forall k :: k in keys <==> k in order || k in remaining
      invariant forall k :: k in order ==> k !in remaining
      decreases |remaining|
    {
      var key :| key in remaining;
      remaining := remaining - {key};
      order := order + [key];
    }
  }

  /** The loop of lines 104-131 over `entries`, in the order the HashMap chooses. */
  method AddTextures(mat: Material, entries: map<string, string>, dir: string,
                     existing: set<string>, uuids: nat -> string)
    modifies mat`textures
    ensures TexturesAdded(old(mat.textures), mat.textures, entries, dir, existing, uuids)
  {
    var order := IterationOrder(entries.Keys);
    for i := 0 to |order|
      invariant mat.textures == old(mat.textures) + Added(entries, order[..i], dir, existing, uuids)
    {
      var key := order[i];
      AddedStep(entries, order, i, dir, existing, uuids);
      AddEntry(mat, key, entries[key], dir, existing, uuids(i));
    }
    assert order[..|order|] == order;
  }

  // ---------------------------------------------------------------------------------------
  // parse
  // ---------------------------------------------------------------------------------------

  /** Lines 100-142: the material as the property map configures it. */
  method Configure(mat: Material, props: map<string, string>, dir: string, existing: set<string>,
                   uuids: nat -> string)
    modifies mat
    ensures var entries := Entries(props);
      TexturesAdded(old(mat.textures), mat.textures, entries, dir, existing, uuids) &&
      mat.diffuseMethod == (if DiffuseMap in props then Some(Lambert) else old(mat.diffuseMethod)) &&
      mat.specularMethod == (if SpecularMap in props then Some(Phong) else old(mat.specularMethod)) &&
      mat.lightingEnabled == (DiffuseMap in props || SpecularMap in props) &&
      mat.colorInfluence == 0.0
  {
    var entries := props;
    if DiffuseMap in entries {
      entries := entries - {AmbientMap};
    }
    AddTextures(mat, entries, dir, existing, uuids);
    if DiffuseMap in entries {
      mat.SetDiffuseMethod(Lambert);
    }
    if SpecularMap in entries {
      mat.SetSpecularMethod(Phong);
    }
    mat.EnableLighting(DiffuseMap in entries || SpecularMap in entries);
    mat.SetColorInfluence(0.0);
  }

  /**
   * parse(mat, mtrFile), lines 64-143. `file` is None when the file cannot be opened or
   * read, and otherwise its lines.
   */
  method Parse(mat: Material, file: Option<seq<string>>, dir: string, existing: set<string>,
               uuids: nat -> string) returns (r: Option<Material>)
    modifies mat
    ensures file.None? || file == Some([]) ==> r.None? && unchanged(mat)
    ensures file.Some? && file.value != [] ==> (
      var props := PropsOf(LineEntries(file.value[1..]));
      r == Some(mat) &&
      TexturesAdded(old(mat.textures), mat.textures, Entries(props), dir, existing, uuids) &&
      mat.diffuseMethod == (if DiffuseMap in props then Some(Lambert) else old(mat.diffuseMethod)) &&
      mat.specularMethod == (if SpecularMap in props then Some(Phong) else old(mat.specularMethod)) &&
      mat.lightingEnabled == (DiffuseMap in props || SpecularMap in props) &&
      mat.colorInfluence == 0.0)
  {
    if file.None? || file.value == [] {
      // lines 94-98: the reader failed, or the first readLine returned null and trim threw
      return None;
    }
    var lines := file.value;
    var matName := MaterialName(lines[0]);
    var props := ReadProps(lines);
    Configure(mat, props, dir, existing, uuids);
    r := Some(mat);
  }

  /** parse(mtrFile), lines 58-61: parse into a new Material. */
  method ParseNew(file: Option<seq<string>>, dir: string, existing: set<string>, uuids: nat -> string)
    returns (r: Option<Material>)
    ensures r.None? <==> file.None? || file == Some([])
    ensures r.Some? ==> fresh(r.value)
    ensures r.Some? ==> (
      var props := PropsOf(LineEntries(file.value[1..]));
      TexturesAdded([], r.value.textures, Entries(props), dir, existing, uuids) &&
      r.value.diffuseMethod == (if DiffuseMap in props then Some(Lambert) else None) &&
      r.value.specularMethod == (if SpecularMap in props then Some(Phong) else None) &&
      r.value.lightingEnabled == (DiffuseMap in props || SpecularMap in props) &&
      r.value.colorInfluence == 0.0)
  {
    var mat := new Material();
    r := Parse(mat, file, dir, existing, uuids);
  }
}
