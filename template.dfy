/**
 * Python's `string.Template.substitute` with a single keyword argument, as
 * the demand validation applies it to its error message. Every `$` in the
 * template starts a placeholder: `$$` is a literal `$`, `$name` and `${name}`
 * are replaced by the value when `name` is the keyword, and raise `KeyError`
 * otherwise; any other `$` raises `ValueError`. Identifiers are ASCII letters,
 * digits and `_`, not starting with a digit, matched case-insensitively but
 * looked up as written.
 */
module Templates {

  /** The result of `substitute`: the text, or the exception it raises. */
  datatype Substitution = Substituted(text: string) | KeyError | ValueError

  predicate IsIdStart(c: char) {
    c == '_' || 'a' <= c <= 'z' || 'A' <= c <= 'Z'
  }

  predicate IsIdChar(c: char) {
    IsIdStart(c) || '0' <= c <= '9'
  }

  /** The length of the longest prefix of `s` made of identifier characters. */
  function IdLength(s: string): (n: nat)
    ensures n <= |s|
    ensures forall i | 0 <= i < n :: IsIdChar(s[i])
    ensures n < |s| ==> !IsIdChar(s[n])
  {
    if s == [] || !IsIdChar(s[0]) then 0 else 1 + IdLength(s[1..])
  }

  /** `p` in front of a substituted text; an exception is left as it is. */
  function Prepend(p: string, r: Substitution): Substitution {
    if r.Substituted? then Substituted(p + r.text) else r
  }

  /** `Template(t).substitute(key=value)`. */
  function Substitute(t: string, key: string, value: string): Substitution
    decreases |t|
  {
    if t == [] then Substituted([])
    else if t[0] != '$' then Prepend([t[0]], Substitute(t[1..], key, value))
    else
      var rest := t[1..];
      if rest != [] && rest[0] == '$' then
        Prepend("$", Substitute(rest[1..], key, value))
      else if rest != [] && IsIdStart(rest[0]) then
        var n := IdLength(rest);
        if rest[..n] == key then Prepend(value, Substitute(rest[n..], key, value)) else KeyError
      else if |rest| >= 2 && rest[0] == '{' && IsIdStart(rest[1])
              && 1 + IdLength(rest[1..]) < |rest| && rest[1 + IdLength(rest[1..])] == '}' then
        var n := IdLength(rest[1..]);
        if rest[1..1 + n] == key then Prepend(value, Substitute(rest[n + 2..], key, value)) else KeyError
      else
        ValueError
  }

  /** `s` holds no `$`, so `Template` copies it as it is. */
  predicate NoDollar(s: string) {
    forall k | 0 <= k < |s| :: s[k] != '$'
  }

  lemma NoDollarConcat(a: string, b: string)
    requires NoDollar(a) && NoDollar(b)
    ensures NoDollar(a + b)
  {
    forall k | 0 <= k < |a + b| ensures (a + b)[k] != '$' {
      if k >= |a| {
        assert (a + b)[k] == b[k - |a|];
      }
    }
  }

  /** An identifier: a letter or `_`, then letters, digits and `_`. */
  predicate IsIdentifier(w: string) {
    w != [] && IsIdStart(w[0]) && forall i | 0 <= i < |w| :: IsIdChar(w[i])
  }

  /** Text without `$` is copied in front of whatever the rest of the template gives. */
  lemma {:induction false} SubstitutePlainPrefix(s: string, t: string, key: string, value: string)
    requires NoDollar(s)
    ensures Substitute(s + t, key, value) == Prepend(s, Substitute(t, key, value))
    decreases |s|
  {
    if s == [] {
      assert s + t == t;
    } else {
      assert (s + t)[0] == s[0] && (s + t)[1..] == s[1..] + t;
      SubstitutePlainPrefix(s[1..], t, key, value);
      var r := Substitute(t, key, value);
      if r.Substituted? {
        assert [s[0]] + (s[1..] + r.text) == s + r.text;
      }
    }
  }

  /** A template without `$` is its own substitution. */
  lemma PlainText(s: string, key: string, value: string)
    requires NoDollar(s)
    ensures Substitute(s, key, value) == Substituted(s)
  {
    SubstitutePlainPrefix(s, [], key, value);
    assert s + [] == s;
  }

  /** `$key` followed by a character that cannot continue an identifier is replaced by the value. */
  lemma NamedPlaceholder(key: string, t: string, value: string)
    requires IsIdentifier(key) && t != [] && !IsIdChar(t[0])
    ensures Substitute("$" + key + t, key, value) == Prepend(value, Substitute(t, key, value))
  {
    var rest := key + t;
    assert ("$" + key + t)[1..] == rest;
    IdLengthOfWord(key, t);
    assert rest[..|key|] == key && rest[|key|..] == t;
  }

  lemma {:induction false} IdLengthOfWord(w: string, t: string)
    requires forall i | 0 <= i < |w| :: IsIdChar(w[i])
    requires t != [] && !IsIdChar(t[0])
    ensures IdLength(w + t) == |w|
    decreases |w|
  {
    if w == [] {
      assert w + t == t;
    } else {
      assert (w + t)[1..] == w[1..] + t;
      IdLengthOfWord(w[1..], t);
    }
  }

  /** `$name` for a name other than the keyword raises `KeyError`, whatever precedes it without `$`. */
  lemma UnknownPlaceholder(pre: string, id: string, t: string, key: string, value: string)
    requires NoDollar(pre) && IsIdentifier(id) && id != key && (t == [] || !IsIdChar(t[0]))
    ensures Substitute(pre + "$" + id + t, key, value) == KeyError
  {
    var rest := id + t;
    assert pre + "$" + id + t == pre + ("$" + rest);
    SubstitutePlainPrefix(pre, "$" + rest, key, value);
    assert ("$" + rest)[1..] == rest;
    if t == [] {
      IdLengthOfWhole(id);
      assert rest == id;
    } else {
      IdLengthOfWord(id, t);
    }
    assert rest[..|id|] == id;
  }

  lemma {:induction false} IdLengthOfWhole(w: string)
    requires forall i | 0 <= i < |w| :: IsIdChar(w[i])
    ensures IdLength(w) == |w|
    decreases |w|
  {
    if w != [] {
      IdLengthOfWhole(w[1..]);
    }
  }

  /** A `$` followed by anything but `$`, `{` or an identifier raises `ValueError`. */
  lemma InvalidPlaceholder(pre: string, t: string, key: string, value: string)
    requires NoDollar(pre) && t != [] && t[0] != '$' && t[0] != '{' && !IsIdStart(t[0])
    ensures Substitute(pre + "$" + t, key, value) == ValueError
  {
    assert pre + "$" + t == pre + ("$" + t);
    SubstitutePlainPrefix(pre, "$" + t, key, value);
    assert ("$" + t)[1..] == t;
  }

  /** `$$` stands for one `$`. */
  lemma EscapedDollar(t: string, key: string, value: string)
    ensures Substitute("$$" + t, key, value) == Prepend("$", Substitute(t, key, value))
  {
    assert ("$$" + t)[1..][1..] == t;
  }

  /** Text without `$`, the placeholder for the keyword, then text without `$`: the value lands between the two texts. */
  lemma PlaceholderBetween(pre: string, key: string, post: string, value: string)
    requires NoDollar(pre) && IsIdentifier(key) && NoDollar(post) && post != [] && !IsIdChar(post[0])
    ensures Substitute(pre + "$" + key + post, key, value) == Substituted(pre + value + post)
  {
    assert pre + "$" + key + post == pre + ("$" + key + post);
    SubstitutePlainPrefix(pre, "$" + key + post, key, value);
    NamedPlaceholder(key, post, value);
    PlainText(post, key, value);
    assert pre + (value + post) == pre + value + post;
  }

  /** An escaped `$$` before the keyword's placeholder: one `$` is kept and the value is put in. */
  lemma EscapeBeforePlaceholder(head: string, mid: string, key: string, post: string, value: string)
    requires NoDollar(head) && NoDollar(mid) && IsIdentifier(key) && NoDollar(post) && post != [] && !IsIdChar(post[0])
    ensures Substitute(head + "$$" + mid + "$" + key + post, key, value) == Substituted(head + "$" + mid + value + post)
  {
    var tail := mid + "$" + key + post;
    var filled := mid + value + post;
    calc {
      Substitute(head + "$$" + mid + "$" + key + post, key, value);
      { assert head + "$$" + mid + "$" + key + post == head + ("$$" + tail); }
      Substitute(head + ("$$" + tail), key, value);
      { SubstitutePlainPrefix(head, "$$" + tail, key, value); }
      Prepend(head, Substitute("$$" + tail, key, value));
      { EscapedDollar(tail, key, value); }
      Prepend(head, Prepend("$", Substitute(tail, key, value)));
      { PlaceholderBetween(mid, key, post, value); }
      Substituted(head + ("$" + filled));
      { assert head + ("$" + filled) == head + "$" + mid + value + post; }
      Substituted(head + "$" + mid + value + post);
    }
  }
}
