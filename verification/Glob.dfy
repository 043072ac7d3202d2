/** Globs compiled to anchored, case-insensitive regular expressions: `*`, `?` and literal text. */
module Glob {
  import opened Bytes

  // ---- A regular-expression language, as far as globs need it ----

  datatype Regex =
    | Start                       // ^
    | End                         // $
    | Literal(c: char)
    | AnyChar                     // .
    | Repeat(body: Regex)         // body*
    | Concat(parts: seq<Regex>)

  /** ASCII case folding, which is what `(?i)` does on ASCII text. */
  function Fold(c: char): char {
    if 'A' <= c <= 'Z' then (c as int + 32) as char else c
  }

  /** `r` matches the stretch of `text` from `i` to `j`. */
  ghost predicate Matches(r: Regex, text: string, i: nat, j: nat)
    requires i <= j <= |text|
    decreases r, 0, j - i
  {
    match r
    case Start => i == j == 0
    case End => i == j == |text|
    case Literal(c) => j == i + 1 && Fold(text[i]) == Fold(c)
    case AnyChar => j == i + 1 && text[i] != '\n'
    case Repeat(body) => i == j || exists k :: i < k <= j && Matches(body, text, i, k) && Matches(r, text, k, j)
    case Concat(parts) => MatchesAll(parts, text, i, j)
  }

  ghost predicate MatchesAll(parts: seq<Regex>, text: string, i: nat, j: nat)
    requires i <= j <= |text|
    decreases parts, 0
  {
    if parts == [] then i == j
    else exists k :: i <= k <= j && Matches(parts[0], text, i, k) && MatchesAll(parts[1..], text, k, j)
  }

  /** `Regex::is_match`: somewhere in the text. */
  ghost predicate IsMatch(r: Regex, text: string) {
    exists i, j :: 0 <= i <= j <= |text| && Matches(r, text, i, j)
  }

  // ---- The pattern text ----

  /** The characters `regex::escape` puts a backslash before. */
  predicate IsMeta(c: char) { c in "\\.+*?()|[]{}^$#&-~" }

  function Escape(c: char): string { if IsMeta(c) then ['\\', c] else [c] }

  const PREFIX: string := "(?i)^"

  function CompileChar(c: char): string {
    if c == '*' then ".*" else if c == '?' then "." else Escape(c)
  }

  function CompileBody(glob: string): string {
    if glob == "" then "" else CompileChar(glob[0]) + CompileBody(glob[1..])
  }

  lemma {:induction false} CompileBodySnoc(glob: string, c: char)
    ensures CompileBody(glob + [c]) == CompileBody(glob) + CompileChar(c)
  {
    if glob == "" {
      assert CompileBody([c]) == CompileChar(c) + CompileBody([c][1..]);
      assert CompileChar(c) + "" == CompileChar(c) && "" + CompileChar(c) == CompileChar(c);
    } else {
      CompileBodySnoc(glob[1..], c);
      assert (glob + [c])[1..] == glob[1..] + [c];
      assert CompileChar(glob[0]) + (CompileBody(glob[1..]) + CompileChar(c)) == CompileBody(glob) + CompileChar(c);
    }
  }

  method CompileGlob(glob: string) returns (pattern: string)
    ensures pattern == PREFIX + CompileBody(glob) + "$"
  {
    hide CompileBody, Escape;
    pattern := PREFIX;
    CompileNothing();
    for k := 0 to |glob|
      invariant pattern == PREFIX + CompileBody(glob[..k])
    {
      assert glob[..k + 1] == glob[..k] + [glob[k]];
      CompileBodySnoc(glob[..k], glob[k]);
      ghost var before := pattern;
      match glob[k]
      case '*' => pattern := pattern + ".*";
      case '?' => pattern := pattern + ".";
      case c => pattern := pattern + Escape(c);
      assert pattern == before + CompileChar(glob[k]);
    }
    assert glob[..|glob|] == glob;
    pattern := pattern + "$";
  }

  lemma CompileNothing()
    ensures CompileBody("") == ""
  {
  }

  // ---- How the pattern text is read ----

  /** An expression read from the front of a pattern, and how many characters it takes. */
  datatype Item = Item(re: Regex, size: nat)

  /** One character class, anchor or escaped character. */
  function ReadAtom(s: string): (a: Option<Item>)
    ensures a.Some? ==> 0 < a.value.size <= |s|
  {
    if s == "" then None
    else
      match s[0]
      case '\\' => if |s| >= 2 && IsMeta(s[1]) then Some(Item(Literal(s[1]), 2)) else None
      case '^' => Some(Item(Start, 1))
      case '$' => Some(Item(End, 1))
      case '.' => Some(Item(AnyChar, 1))
      case c => if IsMeta(c) then None else Some(Item(Literal(c), 1))
  }

  /** An atom, repeated when a `*` follows it. */
  function ReadItem(s: string): (a: Option<Item>)
    ensures a.Some? ==> 0 < a.value.size <= |s|
  {
    match ReadAtom(s)
    case None => None
    case Some(a) => if a.size < |s| && s[a.size] == '*' then Some(Item(Repeat(a.re), a.size + 1)) else Some(a)
  }

  function ReadItems(s: string): Option<seq<Regex>>
    decreases |s|
  {
    if s == "" then Some([])
    else
      match ReadItem(s)
      case None => None
      case Some(a) =>
        match ReadItems(s[a.size..])
        case None => None
        case Some(rest) => Some([a.re] + rest)
  }

  /** `Regex::new` on the syntax globs produce: the case-insensitive flag, then items. */
  function ReadPattern(pattern: string): Option<Regex> {
    if "(?i)" <= pattern then
      match ReadItems(pattern[4..])
      case None => None
      case Some(items) => Some(Concat(items))
    else None
  }

  // ---- The expression a glob stands for ----

  function GlobItem(c: char): Regex {
    if c == '*' then Repeat(AnyChar) else if c == '?' then AnyChar else Literal(c)
  }

  function GlobItems(glob: string): seq<Regex> {
    if glob == "" then [] else [GlobItem(glob[0])] + GlobItems(glob[1..])
  }

  lemma ItemRead(c: char, after: string)
    requires after != "" && after[0] != '*'
    ensures ReadItem(CompileChar(c) + after) == Some(Item(GlobItem(c), |CompileChar(c)|))
    ensures (CompileChar(c) + after)[|CompileChar(c)|..] == after
    ensures CompileChar(c)[0] != '*'
  {
    var s := CompileChar(c) + after;
    assert s[|CompileChar(c)|] == after[0];
    if IsMeta(c) && c != '*' && c != '?' {
      assert s[0] == '\\' && s[1] == c;
    }
  }

  lemma {:induction false} BodyRead(glob: string)
    ensures CompileBody(glob) + "$" != "" && (CompileBody(glob) + "$")[0] != '*'
    ensures ReadItems(CompileBody(glob) + "$") == Some(GlobItems(glob) + [End])
  {
    hide CompileChar, ReadItem, GlobItem;
    if glob == "" {
      assert CompileBody(glob) + "$" == "$" && GlobItems(glob) + [End] == [End];
      EndRead();
    } else {
      var rest := CompileBody(glob[1..]) + "$";
      BodyRead(glob[1..]);
      ItemRead(glob[0], rest);
      assert CompileBody(glob) + "$" == CompileChar(glob[0]) + rest;
      assert GlobItems(glob) + [End] == [GlobItem(glob[0])] + (GlobItems(glob[1..]) + [End]);
    }
  }

  lemma EndRead()
    ensures ReadItems("$") == Some([End])
  {
    assert ReadItem("$") == Some(Item(End, 1)) && "$"[1..] == "";
    assert [End] + [] == [End];
  }

  /** Reading back the compiled text gives the anchored expression of the glob: no character of the
      glob is ever taken for syntax. */
  lemma CompiledPatternRead(glob: string)
    ensures ReadPattern(PREFIX + CompileBody(glob) + "$") == Some(Concat([Start] + GlobItems(glob) + [End]))
  {
    hide CompileBody, GlobItems;
    var body := CompileBody(glob) + "$";
    var pattern := PREFIX + CompileBody(glob) + "$";
    BodyRead(glob);
    assert pattern[..4] == "(?i)" && pattern[4..] == "^" + body;
    assert ReadItem("^" + body) == Some(Item(Start, 1)) by {
      assert ("^" + body)[1] == body[0];
    }
    assert ("^" + body)[1..] == body;
    assert [Start] + GlobItems(glob) + [End] == [Start] + (GlobItems(glob) + [End]);
  }

  // ---- Meaning ----

  predicate OneLine(s: string) { '\n' !in s }

  /** The glob relation, on the text from `i` on: `*` is any newline-free run, `?` one character that
      is not a newline, anything else that character in either case. */
  predicate GlobFrom(glob: string, text: string, i: nat)
    requires i <= |text|
  {
    if glob == "" then i == |text|
    else if glob[0] == '*' then exists k :: i <= k <= |text| && OneLine(text[i..k]) && GlobFrom(glob[1..], text, k)
    else
      && i < |text|
      && (if glob[0] == '?' then text[i] != '\n' else Fold(text[i]) == Fold(glob[0]))
      && GlobFrom(glob[1..], text, i + 1)
  }

  predicate GlobMatches(glob: string, text: string) { GlobFrom(glob, text, 0) }

  lemma {:induction false} DotStarIsOneLine(text: string, i: nat, j: nat)
    requires i <= j <= |text|
    ensures Matches(Repeat(AnyChar), text, i, j) <==> OneLine(text[i..j])
    decreases j - i
  {
    if i < j {
      DotStarIsOneLine(text, i + 1, j);
      assert text[i..j] == [text[i]] + text[i + 1..j];
      assert Matches(AnyChar, text, i, i + 1) <==> text[i] != '\n';
      assert forall k :: i < k <= j && Matches(AnyChar, text, i, k) ==> k == i + 1;
    }
  }

  lemma MatchesAllCons(r: Regex, rest: seq<Regex>, text: string, i: nat, j: nat)
    requires i <= j <= |text|
    ensures MatchesAll([r] + rest, text, i, j)
       <==> exists k :: i <= k <= j && Matches(r, text, i, k) && MatchesAll(rest, text, k, j)
  {
    var parts := [r] + rest;
    assert parts[0] == r && parts[1..] == rest;
    if k :| i <= k <= j && Matches(r, text, i, k) && MatchesAll(rest, text, k, j) {
      assert Matches(parts[0], text, i, k) && MatchesAll(parts[1..], text, k, j);
    }
  }

  lemma MatchesEnd(text: string, i: nat, j: nat)
    requires i <= j <= |text|
    ensures MatchesAll([End], text, i, j) <==> i == j == |text|
  {
    assert [End][1..] == [];
    if i == j == |text| {
      assert Matches([End][0], text, i, i) && MatchesAll([End][1..], text, i, j);
    }
  }

  /** The items of a glob, then the end anchor, match from `i` exactly when the glob matches the
      whole rest of the text. */
  lemma {:induction false} ItemsMeanGlob(glob: string, text: string, i: nat, j: nat)
    requires i <= j <= |text|
    ensures MatchesAll(GlobItems(glob) + [End], text, i, j) <==> j == |text| && GlobFrom(glob, text, i)
    decreases |glob|
  {
    hide MatchesAll;
    if glob == "" {
      assert GlobItems(glob) + [End] == [End];
      MatchesEnd(text, i, j);
    } else {
      var rest := GlobItems(glob[1..]) + [End];
      assert GlobItems(glob) + [End] == [GlobItem(glob[0])] + rest;
      MatchesAllCons(GlobItem(glob[0]), rest, text, i, j);
      forall k | i <= k <= j
        ensures MatchesAll(rest, text, k, j) <==> j == |text| && GlobFrom(glob[1..], text, k)
        ensures Matches(Repeat(AnyChar), text, i, k) <==> OneLine(text[i..k])
      {
        DotStarIsOneLine(text, i, k);
        ItemsMeanGlob(glob[1..], text, k, j);
      }
      var item := GlobItem(glob[0]);
      if k :| i <= k <= j && Matches(item, text, i, k) && MatchesAll(rest, text, k, j) {
        assert GlobFrom(glob, text, i);
      }
      if j == |text| && GlobFrom(glob, text, i) {
        var k :| i <= k <= j && Matches(item, text, i, k) && GlobFrom(glob[1..], text, k) by {
          if glob[0] == '*' {
            var k :| i <= k <= |text| && OneLine(text[i..k]) && GlobFrom(glob[1..], text, k);
            assert Matches(item, text, i, k);
          } else {
            assert Matches(item, text, i, i + 1);
          }
        }
        assert MatchesAll(rest, text, k, j);
      }
    }
  }

  /** For every glob and ASCII text, the compiled pattern matches exactly when the glob does. */
  lemma CompiledGlobMeansGlob(glob: string, text: string)
    ensures var re := ReadPattern(PREFIX + CompileBody(glob) + "$");
            re.Some? && (IsMatch(re.value, text) <==> GlobMatches(glob, text))
  {
    hide MatchesAll, GlobItems, GlobFrom, CompileBody, ReadPattern;
    CompiledPatternRead(glob);
    var rest := GlobItems(glob) + [End];
    var re := Concat([Start] + GlobItems(glob) + [End]);
    assert re == Concat([Start] + rest) by { assert [Start] + GlobItems(glob) + [End] == [Start] + rest; }
    forall i, j | 0 <= i <= j <= |text|
      ensures Matches(re, text, i, j) <==> i == 0 && j == |text| && GlobFrom(glob, text, 0)
    {
      MatchesAllCons(Start, rest, text, i, j);
      ItemsMeanGlob(glob, text, 0, j);
      assert Matches(re, text, i, j) <==> MatchesAll([Start] + rest, text, i, j);
    }
    assert GlobFrom(glob, text, 0) ==> Matches(re, text, 0, |text|);
  }
}
