/**
 * The body of a room update request and its validation (model.UpdateRoomInput).
 * Go strings are taken as sequences of Unicode code points here, which is how
 * strings.TrimSpace reads them.
 */
module RoomInput {
  import opened Common

  /** Both fields are optional: a nil pointer is `None`. */
  datatype UpdateRoomInput = UpdateRoomInput(name: Option<string>, description: Option<string>)

  /** unicode.IsSpace: the Latin-1 spaces and the other White_Space code points. */
  predicate IsSpace(c: char)
  {
    var u := c as int;
    (0x09 <= u <= 0x0d) || u == 0x20 || u == 0x85 || u == 0xa0
    || u == 0x1680 || (0x2000 <= u <= 0x200a) || u == 0x2028 || u == 0x2029
    || u == 0x202f || u == 0x205f || u == 0x3000
  }

  predicate Blank(s: string)
  {
    forall k :: 0 <= k < |s| ==> IsSpace(s[k])
  }

  /** Drop leading white space: what is left is a suffix of `s` that does not start with a space. */
  function TrimLeft(s: string): (r: string)
    ensures |r| <= |s| && r == s[|s| - |r|..]
    ensures Blank(s[..|s| - |r|])
    ensures r == [] || !IsSpace(r[0])
  {
    if s != [] && IsSpace(s[0]) then
      var r := TrimLeft(s[1..]);
      assert s[..|s| - |r|] == [s[0]] + s[1..][..|s| - 1 - |r|];
      r
    else s
  }

  /** Drop trailing white space: what is left is a prefix of `s` that does not end with a space. */
  function TrimRight(s: string): (r: string)
    ensures |r| <= |s| && r == s[..|r|]
    ensures Blank(s[|r|..])
    ensures r == [] || !IsSpace(r[|r| - 1])
  {
    if s != [] && IsSpace(s[|s| - 1]) then
      var r := TrimRight(s[..|s| - 1]);
      assert s[|r|..] == s[..|s| - 1][|r|..] + [s[|s| - 1]];
      r
    else s
  }

  /** strings.TrimSpace: no longer than `s`, with neither a leading nor a trailing space. */
  function TrimSpace(s: string): (t: string)
    ensures |t| <= |s|
    ensures t == [] || (!IsSpace(t[0]) && !IsSpace(t[|t| - 1]))
  {
    var l := TrimLeft(s);
    var t := TrimRight(l);
    assert t != [] ==> t[0] == l[0];
    t
  }

  /** The trimmed text is a slice of the original with only white space cut off either end. */
  lemma TrimSpaceSlice(s: string)
    ensures exists i, j :: 0 <= i <= j <= |s| && TrimSpace(s) == s[i..j]
                          && Blank(s[..i]) && Blank(s[j..])
  {
    var l := TrimLeft(s);
    var i := |s| - |l|;
    var j := i + |TrimSpace(s)|;
    assert TrimSpace(s) == s[i..j];
    assert s[j..] == l[|TrimSpace(s)|..];
  }

  /** All-white-space text trims to nothing from the left already. */
  lemma {:induction false} BlankTrimLeft(s: string)
    requires Blank(s)
    ensures TrimLeft(s) == []
  {
    if s != [] {
      assert IsSpace(s[0]);
      BlankTrimLeft(s[1..]);
    }
  }

  /** Trimming leaves nothing exactly when the text is all white space. */
  lemma TrimSpaceEmpty(s: string)
    ensures TrimSpace(s) == [] <==> Blank(s)
  {
    var l := TrimLeft(s);
    if Blank(s) {
      BlankTrimLeft(s);
    } else {
      var k :| 0 <= k < |s| && !IsSpace(s[k]);
      assert k >= |s| - |l|;
      assert l[k - (|s| - |l|)] == s[k];
      assert !Blank(l[0..]);
    }
  }

  /** The blank check as written compares against a single space, which trimming never leaves. */
  lemma TrimSpaceNeverSingleSpace(s: string)
    ensures TrimSpace(s) != " "
  {
  }

  /**
   * UpdateRoomInput.Validate as written: the second and third checks compare the trimmed
   * text with " ", so they never reject anything.
   */
  function ValidateAsWritten(i: UpdateRoomInput): (r: Option<Error>)
    ensures r == Some(Failure("update structure has no values")) <==> i.name.None? && i.description.None?
  {
    if i.name.None? && i.description.None? then Some(Failure("update structure has no values"))
    else if i.name.Some? && TrimSpace(i.name.value) == " " then Some(Failure("name cannot be empty"))
    else if i.description.Some? && TrimSpace(i.description.value) == " " then
      Some(Failure("description cannot be empty"))
    else None
  }

  /** As written, Validate only ever rejects an input with neither field set. */
  lemma ValidateAsWrittenOnlyRejectsEmpty(i: UpdateRoomInput)
    ensures ValidateAsWritten(i).Some? <==> i.name.None? && i.description.None?
    ensures ValidateAsWritten(i).Some? ==> ValidateAsWritten(i).value == Failure("update structure has no values")
  {
    if i.name.Some? {
      TrimSpaceNeverSingleSpace(i.name.value);
    }
    if i.description.Some? {
      TrimSpaceNeverSingleSpace(i.description.value);
    }
  }

  /** A name of three spaces passes the as-written check. */
  lemma BlankNameAccepted()
    ensures ValidateAsWritten(UpdateRoomInput(Some("   "), None)) == None
  {
    TrimSpaceNeverSingleSpace("   ");
  }

  /** Validate as intended: a present field must hold something other than white space. */
  function Validate(i: UpdateRoomInput): (r: Option<Error>)
    ensures r == Some(Failure("update structure has no values")) <==> i.name.None? && i.description.None?
    ensures i.name.Some? && TrimSpace(i.name.value) == "" ==> r == Some(Failure("name cannot be empty"))
  {
    if i.name.None? && i.description.None? then Some(Failure("update structure has no values"))
    else if i.name.Some? && TrimSpace(i.name.value) == "" then Some(Failure("name cannot be empty"))
    else if i.description.Some? && TrimSpace(i.description.value) == "" then
      Some(Failure("description cannot be empty"))
    else None
  }

  /** What Validate accepts and, per error text, what it rejects. */
  lemma ValidateMeaning(i: UpdateRoomInput)
    ensures Validate(i) == None <==>
      (i.name.Some? || i.description.Some?)
      && (i.name.Some? ==> !Blank(i.name.value))
      && (i.description.Some? ==> !Blank(i.description.value))
    ensures Validate(i) == Some(Failure("name cannot be empty")) <==>
      i.name.Some? && Blank(i.name.value)
    ensures Validate(i) == Some(Failure("description cannot be empty")) <==>
      i.description.Some? && Blank(i.description.value)
      && (i.name.Some? ==> !Blank(i.name.value))
  {
    if i.name.Some? {
      TrimSpaceEmpty(i.name.value);
    }
    if i.description.Some? {
      TrimSpaceEmpty(i.description.value);
    }
  }
}
