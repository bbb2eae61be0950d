/**
 * The preview text shown for other blogs and case studies: `truncateText`
 * strips HTML tags with the regular expression `/<[^>]*>?/gm` and then cuts
 * the plain text to a maximum length, marking the cut with `...`.
 */
module Preview {

  /**
   * The index just past a tag whose `<` stands before position `i`: the
   * regular expression takes every character that is not `>`, then the `>`
   * itself when there is one; so the tag ends just after the first `>` from
   * `i` on, or at the end of the text when there is none.
   */
  function TagEnd(s: string, i: nat): (k: nat)
    requires i <= |s|
    ensures i <= k <= |s|
    ensures || (i < k && s[k - 1] == '>' && forall j :: i <= j < k - 1 ==> s[j] != '>')
            || (k == |s| && forall j :: i <= j < |s| ==> s[j] != '>')
    decreases |s| - i
  {
    if i == |s| then |s|
    else if s[i] == '>' then i + 1
    else TagEnd(s, i + 1)
  }

  /** `s.replace(/<[^>]*>?/gm, '')`: every tag, and an unterminated one up to the end, removed. */
  function StripTags(s: string): (r: string)
    ensures '<' !in r
    ensures |r| <= |s|
    decreases |s|
  {
    if s == [] then []
    else if s[0] != '<' then [s[0]] + StripTags(s[1..])
    else StripTags(s[TagEnd(s, 1)..])
  }

  /** Text without `<` is left as it is. */
  lemma {:induction false} StripPlain(s: string)
    requires '<' !in s
    ensures StripTags(s) == s
    decreases |s|
  {
    if s != [] {
      assert s[0] in s;
      assert forall c :: c in s[1..] ==> c in s;
      StripPlain(s[1..]);
    }
  }

  /** Stripping twice is stripping once. */
  lemma StripIdempotent(s: string)
    ensures StripTags(StripTags(s)) == StripTags(s)
  {
    StripPlain(StripTags(s));
  }

  /** A complete tag `<...>` disappears with its contents, and so does an unterminated one. */
  lemma StripTag(t: string, rest: string)
    requires '>' !in t
    ensures StripTags(['<'] + t + ['>'] + rest) == StripTags(rest)
    ensures StripTags(['<'] + t) == []
  {
    var s := ['<'] + t + ['>'] + rest;
    var k := TagEnd(s, 1);
    assert forall i :: 1 <= i <= |t| ==> s[i] == t[i - 1];
    assert s[|t| + 1] == '>';
    assert k == |t| + 2;
    assert s[k..] == rest;
    var u := ['<'] + t;
    assert forall i :: 1 <= i < |u| ==> u[i] == t[i - 1];
    assert TagEnd(u, 1) == |u|;
    assert u[|u|..] == [];
  }

  /** Plain text before a tag is kept in front of what the rest strips to. */
  lemma {:induction false} StripKeepsText(a: string, rest: string)
    requires '<' !in a
    ensures StripTags(a + rest) == a + StripTags(rest)
    decreases |a|
  {
    if a != [] {
      var s := a + rest;
      assert a == [a[0]] + a[1..];
      assert s[0] == a[0] && a[0] in a;
      assert s[1..] == a[1..] + rest;
      assert forall c :: c in a[1..] ==> c in a;
      StripKeepsText(a[1..], rest);
      assert s[0] != '<';
      assert StripTags(s) == [a[0]] + StripTags(a[1..] + rest);
      assert [a[0]] + (a[1..] + StripTags(rest)) == a + StripTags(rest);
    } else {
      assert a + rest == rest;
    }
  }

  const Ellipsis := "..."

  /**
   * `truncateText(text, maxLength)`: the stripped text when it is at most
   * `maxLength` long, otherwise its first `maxLength` characters and `...`
   * (`substring` counts a negative length as 0).
   */
  function TruncateText(text: string, maxLength: int): (r: string)
    ensures '<' !in r
    ensures maxLength >= 0 ==> |r| <= maxLength + 3
    ensures |StripTags(text)| <= maxLength ==> r == StripTags(text)
    ensures |StripTags(text)| > maxLength ==>
      (var n := if maxLength < 0 then 0 else maxLength;
       |r| == n + 3 && r[..n] == StripTags(text)[..n] && r[n..] == Ellipsis)
  {
    var stripped := StripTags(text);
    if |stripped| <= maxLength then stripped
    else
      var n := if maxLength < 0 then 0 else maxLength;
      var r := stripped[..n] + Ellipsis;
      assert forall i :: 0 <= i < n ==> r[i] == stripped[i];
      assert r[..n] == stripped[..n];
      assert r[n..] == Ellipsis;
      r
  }

  /** Truncating plain text that fits changes nothing. */
  lemma TruncateShortPlain(text: string, maxLength: int)
    requires '<' !in text && |text| <= maxLength
    ensures TruncateText(text, maxLength) == text
  {
    StripPlain(text);
  }
}
