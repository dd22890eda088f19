/** How Rust cuts text into lines and words. */
module Text {

  function LineEnd(s: string, i: nat := 0): (n: nat)
    requires i <= |s|
    ensures i <= n <= |s| && '\n' !in s[i..n] && (n < |s| ==> s[n] == '\n')
    decreases |s| - i
  {
    if i == |s| || s[i] == '\n' then i else LineEnd(s, i + 1)
  }

  function WithoutReturn(line: string): string {
    if line != "" && line[|line| - 1] == '\r' then line[..|line| - 1] else line
  }

  /** Rust's lines: ended by LF or CR LF, and a last line may have no end. */
  function Lines(s: string): seq<string>
    decreases |s|
  {
    if s == "" then []
    else
      var n := LineEnd(s);
      if n == |s| then [s] else [WithoutReturn(s[..n])] + Lines(s[n + 1..])
  }

  lemma {:induction false} LineEndAt(s: string, i: nat, n: nat)
    requires i <= n <= |s| && (n < |s| ==> s[n] == '\n') && forall k :: i <= k < n ==> s[k] != '\n'
    ensures LineEnd(s, i) == n
    decreases n - i
  {
    if i < n {
      LineEndAt(s, i + 1, n);
    }
  }

  /** A line ended by CR LF in front of more text. */
  lemma FrontLine(line: string, rest: string)
    requires forall i :: 0 <= i < |line| ==> line[i] != '\n'
    ensures Lines(line + ("\r\n" + rest)) == [line] + Lines(rest)
  {
    var text := line + ("\r\n" + rest);
    LineEndAt(text, 0, |line| + 1);
    assert text[..|line| + 1] == line + ['\r'];
    assert WithoutReturn(line + ['\r']) == line by { assert (line + ['\r'])[..|line|] == line; }
    assert text[|line| + 2..] == rest;
  }

  /** White space as Unicode defines it. */
  predicate IsSpace(c: char) {
    || '\t' <= c <= '\r' || c == ' '
    || c == '\U{0085}' || c == '\U{00A0}' || c == '\U{1680}' || '\U{2000}' <= c <= '\U{200A}'
    || c == '\U{2028}' || c == '\U{2029}' || c == '\U{202F}' || c == '\U{205F}' || c == '\U{3000}'
  }

  /** The 25 code points with the property White_Space, by number. */
  lemma IsSpaceExactly(c: char)
    ensures IsSpace(c) <==>
              c as int in {9, 10, 11, 12, 13, 32, 133, 160, 5760,
                           8192, 8193, 8194, 8195, 8196, 8197, 8198, 8199, 8200, 8201, 8202,
                           8232, 8233, 8239, 8287, 12288}
  {
  }

  function TrimStart(s: string): string {
    if s != "" && IsSpace(s[0]) then TrimStart(s[1..]) else s
  }

  function TrimEnd(s: string): string {
    if s != "" && IsSpace(s[|s| - 1]) then TrimEnd(s[..|s| - 1]) else s
  }

  function Trim(s: string): string { TrimEnd(TrimStart(s)) }

  /** A run of characters that are not white space. */
  predicate IsWord(s: string) {
    s != "" && forall i :: 0 <= i < |s| ==> !IsSpace(s[i])
  }

  function WordEnd(s: string, i: nat := 0): (n: nat)
    requires i <= |s|
    ensures i <= n <= |s| && (forall k :: i <= k < n ==> !IsSpace(s[k])) && (n < |s| ==> IsSpace(s[n]))
    decreases |s| - i
  {
    if i == |s| || IsSpace(s[i]) then i else WordEnd(s, i + 1)
  }

  /** The words of a text, without the white space around them. */
  function Words(s: string): (r: seq<string>)
    ensures forall i :: 0 <= i < |r| ==> IsWord(r[i])
    decreases |s|
  {
    if s == "" then []
    else if IsSpace(s[0]) then Words(s[1..])
    else
      var n := WordEnd(s);
      [s[..n]] + Words(s[n..])
  }

  lemma {:induction false} WordEndAt(s: string, i: nat, n: nat)
    requires i <= n <= |s| && (n < |s| ==> IsSpace(s[n])) && forall k :: i <= k < n ==> !IsSpace(s[k])
    ensures WordEnd(s, i) == n
    decreases n - i
  {
    if i < n {
      WordEndAt(s, i + 1, n);
    }
  }

  lemma WordsLast(word: string)
    requires IsWord(word)
    ensures Words(word) == [word]
  {
    WordEndAt(word, 0, |word|);
    assert word[..|word|] == word && word[|word|..] == "";
  }

  lemma WordsCons(word: string, rest: string)
    requires IsWord(word)
    ensures Words(word + ([' '] + rest)) == [word] + Words(rest)
  {
    var s := word + ([' '] + rest);
    WordEndAt(s, 0, |word|);
    assert s[..|word|] == word && s[|word|..] == [' '] + rest;
    assert ([' '] + rest)[1..] == rest;
  }
}
