/**
 * Removal of a data-URL prefix ("data:image/jpeg;base64,") from a Base64
 * string, with the semantics of Java's String.split(",") followed by
 * taking element 1.
 */
module DataUrl {
  import opened Wrappers

  const Comma: char := ','

  /** The comma-separated fields of s, empty ones included: "a,,b," has four. */
  function Fields(s: string): (fs: seq<string>)
    ensures |fs| >= 1
    ensures forall i :: 0 <= i < |fs| ==> Comma !in fs[i]
    ensures |fs| == 1 <==> Comma !in s
    decreases |s|
  {
    if s == [] then [""]
    else
      var rest := Fields(s[1..]);
      if s[0] == Comma then [""] + rest
      else [[s[0]] + rest[0]] + rest[1..]
  }

  /** The fields put back together with a comma between neighbours. */
  function Join(fs: seq<string>): (s: string)
    requires |fs| >= 1
  {
    if |fs| == 1 then fs[0] else fs[0] + [Comma] + Join(fs[1..])
  }

  /** Splitting at the commas and joining again gives back the string. */
  lemma {:induction false} JoinFields(s: string)
    ensures Join(Fields(s)) == s
    decreases |s|
  {
    if s != [] {
      JoinFields(s[1..]);
      var rest := Fields(s[1..]);
      if s[0] != Comma {
        if |rest| == 1 {
          assert Fields(s) == [[s[0]] + rest[0]];
        } else {
          assert Fields(s)[1..] == rest[1..];
          assert Join(rest) == rest[0] + [Comma] + Join(rest[1..]);
        }
      } else {
        assert Fields(s)[1..] == rest;
      }
    }
  }

  /** Joining comma-free fields and splitting again gives back the fields. */
  lemma {:induction false} FieldsJoin(fs: seq<string>)
    requires |fs| >= 1
    requires forall i :: 0 <= i < |fs| ==> Comma !in fs[i]
    ensures Fields(Join(fs)) == fs
    decreases |fs|, |fs[0]|
  {
    if |fs| == 1 {
      FieldsOfCommaFree(fs[0]);
    } else if fs[0] == [] {
      FieldsJoin(fs[1..]);
      assert Join(fs) == [Comma] + Join(fs[1..]);
      assert Join(fs)[1..] == Join(fs[1..]);
    } else {
      var shorter := [fs[0][1..]] + fs[1..];
      assert forall i :: 0 <= i < |shorter| ==> Comma !in shorter[i] by {
        forall i | 0 <= i < |shorter| ensures Comma !in shorter[i] {
          if i > 0 { assert shorter[i] == fs[i]; }
        }
      }
      FieldsJoin(shorter);
      assert Join(fs) == [fs[0][0]] + Join(shorter);
      assert Join(fs)[1..] == Join(shorter);
      assert fs[0][0] != Comma;
      assert fs[0] == [fs[0][0]] + shorter[0];
      assert fs == [[fs[0][0]] + shorter[0]] + shorter[1..];
    }
  }

  /** A string without a comma is a single field. */
  lemma FieldsOfCommaFree(s: string)
    requires Comma !in s
    ensures Fields(s) == [s]
  {
    JoinFields(s);
  }

  /**
   * Java's removal of trailing empty strings from a split result: the
   * result is the shortest prefix of fs after which every field is empty.
   */
  function DropTrailingEmpty(fs: seq<string>): (r: seq<string>)
    ensures r <= fs
    ensures r == [] || r[|r| - 1] != ""
    ensures forall i :: |r| <= i < |fs| ==> fs[i] == ""
  {
    if fs == [] || fs[|fs| - 1] != "" then fs
    else DropTrailingEmpty(fs[..|fs| - 1])
  }

  /**
   * String.split(",") with its default limit of 0: a string without a comma
   * gives itself alone; otherwise every comma separates two fields and the
   * trailing empty fields are dropped.
   */
  function Split(s: string): (parts: seq<string>)
    ensures Comma !in s ==> parts == [s]
    ensures forall i :: 0 <= i < |parts| ==> Comma !in parts[i]
    ensures Comma in s ==> parts <= Fields(s) && (parts == [] || parts[|parts| - 1] != "")
    ensures Comma in s ==> forall i :: |parts| <= i < |Fields(s)| ==> Fields(s)[i] == ""
  {
    if Comma !in s then [s] else DropTrailingEmpty(Fields(s))
  }

  /**
   * `if (s.contains(",")) s = s.split(",")[1];`. Failure(n) is the index
   * error raised when the split result has only n < 2 elements.
   */
  function StripPrefix(s: string): (r: Result<string, nat>)
    ensures Comma !in s ==> r == Success(s)
    ensures r.Success? ==> Comma !in r.value
    ensures r.Failure? ==> Comma in s && r.error < 2
  {
    if Comma in s then
      var parts := Split(s);
      if |parts| >= 2 then Success(parts[1]) else Failure(|parts|)
    else Success(s)
  }

  /**
   * On a string with a comma, stripping succeeds exactly when some field
   * after the first is non-empty, and then yields the second field (not
   * the rest of the string after the first comma).
   */
  lemma StripPrefixOfFields(s: string)
    requires Comma in s
    ensures StripPrefix(s).Success? <==> exists k :: 1 <= k < |Fields(s)| && Fields(s)[k] != ""
    ensures StripPrefix(s).Success? ==> StripPrefix(s).value == Fields(s)[1]
  {
    var fs := Fields(s);
    var parts := DropTrailingEmpty(fs);
    if exists k :: 1 <= k < |fs| && fs[k] != "" {
      var k :| 1 <= k < |fs| && fs[k] != "";
      assert k < |parts|;
    }
  }

  /** "data:image/jpeg;base64,P" strips to P when P is a non-empty comma-free payload. */
  lemma DataUrlPayload(prefix: string, payload: string)
    requires Comma !in prefix && Comma !in payload && payload != ""
    ensures StripPrefix(prefix + [Comma] + payload) == Success(payload)
  {
    var s := prefix + [Comma] + payload;
    assert Join([prefix, payload]) == s;
    FieldsJoin([prefix, payload]);
    assert s[|prefix|] == Comma;
  }

  /** A string whose only comma is its last character raises the index error. */
  lemma TrailingCommaFails(prefix: string)
    requires Comma !in prefix
    ensures StripPrefix(prefix + [Comma]).Failure?
  {
    var s := prefix + [Comma];
    assert Join([prefix, ""]) == s;
    FieldsJoin([prefix, ""]);
    assert s[|prefix|] == Comma;
  }

  /** With two commas only the middle field survives: "a,b,c" strips to "b". */
  lemma MiddleFieldOnly(a: string, b: string, c: string)
    requires Comma !in a && Comma !in b && Comma !in c && b != ""
    ensures StripPrefix(a + [Comma] + b + [Comma] + c) == Success(b)
  {
    var s := a + [Comma] + b + [Comma] + c;
    assert [a, b, c][1..] == [b, c];
    assert [b, c][1..] == [c];
    assert Join([b, c]) == b + [Comma] + c;
    assert Join([a, b, c]) == a + [Comma] + (b + [Comma] + c);
    assert Join([a, b, c]) == s;
    FieldsJoin([a, b, c]);
    assert s[|a|] == Comma;
  }
}
