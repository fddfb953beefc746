/**
 * The structural reading of an application/x-www-form-urlencoded body, after
 * the parser of the WHATWG URL Standard, section 5.1: split the body on '&',
 * then each part at its first '='. Unlike that parser it keeps empty parts
 * (so "" reads as one empty field) and does not turn '+' into a space or
 * percent-decode; the bodies checked against it have neither empty parts nor
 * '+' outside the encoded values. It is the reference against which the
 * request body and the QR-code query string are checked.
 */
module FormEncoding {

  /** A value that cannot break the form: neither separator occurs in it. */
  predicate FormSafe(t: string) {
    '&' !in t && '=' !in t
  }

  /** The '&'-separated parts of a body; never empty, as in the standard. */
  function Split(s: string, sep: char): (parts: seq<string>)
    ensures |parts| >= 1
    ensures forall k :: 0 <= k < |parts| ==> sep !in parts[k]
    decreases |s|
  {
    if s == [] then [""]
    else
      var rest := Split(s[1..], sep);
      if s[0] == sep then [""] + rest
      else [[s[0]] + rest[0]] + rest[1..]
  }

  /** A part with no separator in it stays whole. */
  lemma {:induction false} SplitNoSep(a: string, sep: char)
    requires sep !in a
    ensures Split(a, sep) == [a]
    decreases |a|
  {
    if a != [] {
      SplitNoSep(a[1..], sep);
      assert [a[0]] + a[1..] == a;
    }
  }

  /** A separator ends the first part exactly where it stands. */
  lemma {:induction false} SplitAfter(a: string, sep: char, b: string)
    requires sep !in a
    ensures Split(a + [sep] + b, sep) == [a] + Split(b, sep)
    decreases |a|
  {
    if a == [] {
      assert (a + [sep] + b)[1..] == b;
    } else {
      assert (a + [sep] + b)[1..] == a[1..] + [sep] + b;
      SplitAfter(a[1..], sep, b);
      assert [a[0]] + a[1..] == a;
    }
  }

  /** A part cut at its first '=' into a name and a value (no '=' means an empty value). */
  function Cut(p: string): (nv: (string, string))
    ensures '=' !in nv.0
    ensures '=' in p ==> p == nv.0 + "=" + nv.1
    ensures '=' !in p ==> nv == (p, "")
    decreases |p|
  {
    if p == [] then ("", "")
    else if p[0] == '=' then ("", p[1..])
    else
      var rest := Cut(p[1..]);
      assert p == [p[0]] + p[1..];
      ([p[0]] + rest.0, rest.1)
  }

  /** The name/value pairs of a body. */
  function ParseForm(body: string): (fields: seq<(string, string)>)
    ensures |fields| == |Split(body, '&')|
  {
    var parts := Split(body, '&');
    seq(|parts|, i requires 0 <= i < |parts| => Cut(parts[i]))
  }

  /** A separator-free name and value are recovered exactly. */
  lemma CutField(name: string, value: string)
    requires FormSafe(name) && '=' !in value
    ensures Cut(name + "=" + value) == (name, value)
  {
    var c := Cut(name + "=" + value);
    var whole := name + "=" + value;
    assert whole == c.0 + "=" + c.1;
    assert whole[|c.0|] == '=' && whole[|name|] == '=';
    assert forall k :: 0 <= k < |name| ==> whole[k] == name[k];
    assert forall k :: 0 <= k < |c.0| ==> whole[k] == c.0[k];
    assert |c.0| == |name|;
    assert c.0 == (name + "=" + value)[..|name|] == name;
    assert c.1 == (name + "=" + value)[|name| + 1..] == value;
  }

  /** Reading a body that holds one more field ahead of a rest. */
  lemma ParseFormCons(name: string, value: string, rest: string)
    requires FormSafe(name) && FormSafe(value)
    ensures ParseForm(name + "=" + value + "&" + rest) == [(name, value)] + ParseForm(rest)
  {
    var field := name + "=" + value;
    assert '&' !in field;
    assert name + "=" + value + "&" + rest == field + ['&'] + rest;
    SplitAfter(field, '&', rest);
    CutField(name, value);
  }

  /** Reading a body that is a single field. */
  lemma ParseFormOne(name: string, value: string)
    requires FormSafe(name) && FormSafe(value)
    ensures ParseForm(name + "=" + value) == [(name, value)]
  {
    assert '&' !in name + "=" + value;
    SplitNoSep(name + "=" + value, '&');
    CutField(name, value);
  }
}
