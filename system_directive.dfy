/** SOFiSTiK system directives: the `+SYS`, `-SYS` and `*SYS` lines of a
    `.dat` input deck.  A directive is a three-state switch (on, off, or
    linked to the last PROG line) whose state is also written in the line
    itself, as the character just before "SYS". */
module Directive {
  import opened Failures
  import opened Builtins

  /** `is_system_directive`: characters 1 to 3 of the left-stripped,
      upper-cased line read "SYS". */
  predicate IsSystemDirective(s: string)
  {
    Slice(Upper(LStrip(s)), 1, 4) == "SYS"
  }

  datatype Status = Linked | Off | On

  /** The character that encodes a status in the directive's text. */
  function StatusChar(st: Status): char
  {
    match st
    case Linked => '*'
    case Off => '-'
    case On => '+'
  }

  /** Where the status character is read: just before the first "SYS".
      Without "SYS" this is -2, which Python reads from the end. */
  function StatusPos(content: string): int
  {
    Find(content, "SYS") - 1
  }

  /** The status detected when a directive is built from `content`. */
  function Detect(content: string): (r: Result<Status>)
    ensures r.Ok? ==> At(content, StatusPos(content)) == Ok(StatusChar(r.value))
    ensures r.Err? <==> forall st :: At(content, StatusPos(content)) != Ok(StatusChar(st))
    ensures r.Err? ==> (r.failure == IndexError <==> At(content, StatusPos(content)).Err?)
    ensures r.Err? ==> r.failure == IndexError || r.failure == RuntimeError
  {
    match At(content, StatusPos(content))
    case Err(e) => Err(e)
    case Ok(c) =>
      if c == '*' then Ok(Linked)
      else if c == '-' then Ok(Off)
      else if c == '+' then Ok(On)
      else Err(RuntimeError)
  }

  /** The text shape `from_string` produces: blanks, then the status
      character, then "SYS". */
  predicate Canonical(content: string, st: Status)
  {
    var p := StatusPos(content);
    0 <= p < |content| &&
    (forall i :: 0 <= i < p ==> IsSpace(content[i])) &&
    content[p] == StatusChar(st)
  }

  class SystemDirective {
    var content: string
    var isLinked: bool
    var isOff: bool
    var isOn: bool

    function Status(): Status
      reads this
    {
      if isLinked then Linked else if isOff then Off else On
    }

    /** Exactly one of the three flags is set, the character of that status
        occurs in the text, where the transitions look for it, and the text
        is upper-cased. */
    predicate Valid()
      reads this
    {
      (if isLinked then 1 else 0) + (if isOff then 1 else 0) + (if isOn then 1 else 0) == 1 &&
      StatusChar(Status()) in content &&
      Upper(content) == content
    }

    constructor Init(content: string, st: Status)
      requires StatusChar(st) in content && Upper(content) == content
      ensures this.content == content && Status() == st && Valid()
    {
      this.content := content;
      isLinked := st == Linked;
      isOff := st == Off;
      isOn := st == On;
    }

    /** `SOFiSTiKSystemDirective(content)`: upper-cases the text and reads
        the status; any other character than '*', '-' or '+' raises. */
    static method Create(content: string) returns (r: Result<SystemDirective>)
      ensures r.Ok? <==> Detect(Upper(content)).Ok?
      ensures r.Err? ==> r.failure == Detect(Upper(content)).failure
      ensures r.Ok? ==> fresh(r.value) && r.value.Valid()
      ensures r.Ok? ==> r.value.content == Upper(content) && r.value.Status() == Detect(Upper(content)).value
    {
      var text := Upper(content);
      UpperIdempotent(content);
      var detected := Detect(text);
      if detected.Err? {
        return Err(detected.failure);
      }
      var d := new SystemDirective.Init(text, detected.value);
      r := Ok(d);
    }

    /** `from_string`: the line must pass the "SYS" test, and is stored
        right-stripped and upper-cased. */
    static method FromString(s: string) returns (r: Result<SystemDirective>)
      ensures r.Ok? <==> IsSystemDirective(s) && LStrip(s) != [] && IsStatusChar(LStrip(s)[0])
      ensures r.Err? ==> r.failure == RuntimeError
      ensures r.Ok? ==> fresh(r.value) && r.value.Valid()
      ensures r.Ok? ==> r.value.content == RStrip(Upper(s)) && Canonical(r.value.content, r.value.Status())
    {
      FromStringCheckAgrees(s);
      if Slice(Upper(RStrip(LStrip(s))), 1, 4) != "SYS" {
        return Err(RuntimeError);
      }
      FromStringDetects(s);
      r := Create(RStrip(Upper(s)));
    }

    /** `link_to_prog`. */
    method LinkToProg()
      requires Valid()
      modifies this
      ensures Valid() && Status() == Linked
      ensures old(Status()) == Linked ==> content == old(content)
      ensures old(Status()) != Linked ==>
        content == Rewritten(old(content), old(Status()), Linked)
      ensures Canonical(old(content), old(Status())) ==>
        content == old(content)[StatusPos(old(content)) := '*'] && Canonical(content, Status())
    {
      if !isLinked {
        Switch(Linked);
      }
    }

    /** `turn_off`. */
    method TurnOff()
      requires Valid()
      modifies this
      ensures Valid() && Status() == Off
      ensures old(Status()) == Off ==> content == old(content)
      ensures old(Status()) != Off ==>
        content == Rewritten(old(content), old(Status()), Off)
      ensures Canonical(old(content), old(Status())) ==>
        content == old(content)[StatusPos(old(content)) := '-'] && Canonical(content, Status())
    {
      if !isOff {
        Switch(Off);
      }
    }

    /** `turn_on`. */
    method TurnOn()
      requires Valid()
      modifies this
      ensures Valid() && Status() == On
      ensures old(Status()) == On ==> content == old(content)
      ensures old(Status()) != On ==>
        content == Rewritten(old(content), old(Status()), On)
      ensures Canonical(old(content), old(Status())) ==>
        content == old(content)[StatusPos(old(content)) := '+'] && Canonical(content, Status())
    {
      if !isOn {
        Switch(On);
      }
    }

    /** The step the three transitions share: the first occurrence of the
        current status character is overwritten with the new one. */
    method Switch(st: Status)
      requires Valid() && Status() != st
      modifies this
      ensures Valid() && Status() == st
      ensures content == Rewritten(old(content), old(Status()), st)
      ensures Canonical(old(content), old(Status())) ==>
        content == old(content)[StatusPos(old(content)) := StatusChar(st)] && Canonical(content, st)
    {
      var from := StatusChar(Status());
      FindPresent(content, from);
      RewrittenKeeps(content, Status(), st);
      var i := Find(content, [from]);
      content := content[i := StatusChar(st)];
      isLinked, isOff, isOn := st == Linked, st == Off, st == On;
    }

    /** `__eq__` against another directive. */
    predicate Equals(other: SystemDirective)
      reads this, other
      ensures Equals(other) <==> Serialize() == other.Serialize()
    {
      content == other.content
    }

    /** `serialize` and `get_content_as_string`: the text of a directive,
        upper-cased and carrying the character of its status. */
    function Serialize(): (r: string)
      reads this
      ensures Valid() ==> Upper(r) == r && StatusChar(Status()) in r
    {
      content
    }
  }

  predicate IsStatusChar(c: char)
  {
    c == '*' || c == '-' || c == '+'
  }

  /** The text after a transition from `from` to `to`: the first occurrence
      of the old status character is overwritten with the new one. */
  function Rewritten(content: string, from: Status, to: Status): (r: string)
    ensures |r| == |content|
    ensures StatusChar(from) in content ==> StatusChar(to) in r
  {
    if StatusChar(from) !in content then content
    else
      FindPresent(content, StatusChar(from));
      var i := Find(content, [StatusChar(from)]);
      assert content[i := StatusChar(to)][i] == StatusChar(to);
      content[i := StatusChar(to)]
  }

  /** A rewritten upper-case text stays upper case and carries the new
      status character; a canonical text stays canonical, changed only at
      the status position. */
  lemma RewrittenKeeps(s: string, from: Status, to: Status)
    requires StatusChar(from) in s && Upper(s) == s
    ensures var r := Rewritten(s, from, to);
      StatusChar(to) in r && Upper(r) == r &&
      (Canonical(s, from) ==> r == s[StatusPos(s) := StatusChar(to)] && Canonical(r, to))
  {
    FindPresent(s, StatusChar(from));
    var i := Find(s, [StatusChar(from)]);
    var r := Rewritten(s, from, to);
    assert r == s[i := StatusChar(to)];
    assert r[i] == StatusChar(to);
    forall j | 0 <= j < |r|
      ensures Upper(r)[j] == r[j]
    {
      assert j != i ==> r[j] == s[j] && Upper(s)[j] == s[j];
    }
    if Canonical(s, from) {
      FindCharAfterBlanks(s, StatusPos(s), StatusChar(from));
      FindAfterStatus(s, StatusPos(s), StatusChar(to));
    }
  }

  // ------------------------------------------------------------ laws

  /** "SYS" spelled out character by character at position `k`. */
  predicate SysAt(x: string, k: int)
  {
    0 <= k && k + 3 <= |x| && x[k] == 'S' && x[k + 1] == 'Y' && x[k + 2] == 'S'
  }

  lemma SliceSys(x: string)
    ensures Slice(x, 1, 4) == "SYS" <==> SysAt(x, 1)
  {
    if SysAt(x, 1) {
      assert Slice(x, 1, 4) == x[1..4];
    }
    if Slice(x, 1, 4) == "SYS" {
      assert |x| >= 4;
      assert x[1..4][0] == x[1];
    }
  }

  lemma OccursSys(x: string, k: int)
    ensures OccursAt(x, "SYS", k) <==> SysAt(x, k)
  {
    if SysAt(x, k) {
      assert x[k..k + 3] == "SYS";
    }
  }

  /** `is_system_directive` accepts exactly the lines that, after their
      leading blanks, have at least four characters with "SYS" in any case
      at positions 1 to 3. */
  lemma SystemDirectiveShape(s: string)
    ensures IsSystemDirective(s) <==>
              var t := LStrip(s);
              |t| >= 4 && UpperChar(t[1]) == 'S' && UpperChar(t[2]) == 'Y' && UpperChar(t[3]) == 'S'
  {
    SliceSys(Upper(LStrip(s)));
  }

  /** The test `from_string` applies (the line stripped on both sides) and
      `is_system_directive` (stripped on the left only) accept the same
      lines. */
  lemma FromStringCheckAgrees(s: string)
    ensures Slice(Upper(RStrip(LStrip(s))), 1, 4) == "SYS" <==> IsSystemDirective(s)
  {
    var t := LStrip(s);
    var u := RStrip(t);
    SliceSys(Upper(t));
    SliceSys(Upper(u));
    if SysAt(Upper(t), 1) {
      assert UpperChar(t[3]) == 'S';
      assert !IsSpace(t[3]);
      assert |u| >= 4;
      assert u[1] == t[1] && u[2] == t[2] && u[3] == t[3];
    }
  }

  /** On a line that passes the "SYS" test, the status is read from its
      first non-blank character, and the stored text is canonical. */
  lemma FromStringDetects(s: string)
    requires IsSystemDirective(s)
    ensures var text := RStrip(Upper(s));
      Upper(text) == text && LStrip(s) != [] &&
      (Detect(text).Ok? <==> IsStatusChar(LStrip(s)[0])) &&
      (Detect(text).Err? ==> Detect(text).failure == RuntimeError) &&
      (Detect(text).Ok? ==> Canonical(text, Detect(text).value))
  {
    var text := RStrip(Upper(s));
    var p := |s| - |LStrip(s)|;
    StrippedShape(s, p);
    UpperStripped(s);
    FindAfterBlanks(text, p);
    assert StatusPos(text) == p;
    assert At(text, p) == Ok(text[p]);
    assert LStrip(s)[0] == s[p];
    assert IsStatusChar(text[p]) <==> IsStatusChar(s[p]);
  }

  /** A line that passes the "SYS" test, stored right-stripped and
      upper-cased, keeps its leading blanks, its first non-blank character
      and the "SYS" after it. */
  lemma StrippedShape(s: string, p: int)
    requires IsSystemDirective(s) && p == |s| - |LStrip(s)|
    ensures var text := RStrip(Upper(s));
      p + 4 <= |text| &&
      (forall i :: 0 <= i < p ==> IsSpace(text[i])) &&
      !IsSpace(text[p]) && text[p] == UpperChar(s[p]) &&
      OccursAt(text, "SYS", p + 1)
  {
    var up := Upper(s);
    var text := RStrip(up);
    SysInLine(s, p);
    RStripKeeps(up, p + 3);
    forall i | 0 <= i <= p + 3
      ensures text[i] == UpperChar(s[i])
    {
      assert text[..p + 4][i] == up[..p + 4][i];
    }
    forall i | 0 <= i < p
      ensures IsSpace(text[i])
    {
      UpperSpace(s[i]);
    }
    UpperSpace(s[p]);
    OccursSys(text, p + 1);
  }

  /** Upper-casing keeps blanks blank and everything else non-blank. */
  lemma UpperSpace(c: char)
    ensures IsSpace(UpperChar(c)) <==> IsSpace(c)
  {
  }

  /** Where the "SYS" of a line that passes the test stands: right after
      its first non-blank character. */
  lemma SysInLine(s: string, p: int)
    requires IsSystemDirective(s) && p == |s| - |LStrip(s)|
    ensures p + 4 <= |s| && !IsSpace(s[p])
    ensures UpperChar(s[p + 1]) == 'S' && UpperChar(s[p + 2]) == 'Y' && UpperChar(s[p + 3]) == 'S'
  {
    var t := LStrip(s);
    SliceSys(Upper(t));
    assert t[1] == s[p + 1] && t[2] == s[p + 2] && t[3] == s[p + 3] && t[0] == s[p];
  }

  /** Right-stripping keeps everything up to a non-blank character. */
  lemma RStripKeeps(u: string, j: int)
    requires 0 <= j < |u| && !IsSpace(u[j])
    ensures j < |RStrip(u)| && RStrip(u)[..j + 1] == u[..j + 1]
  {
  }

  /** Upper-casing a text that is already upper-cased changes nothing. */
  lemma UpperStripped(s: string)
    ensures Upper(RStrip(Upper(s))) == RStrip(Upper(s))
  {
    var text := RStrip(Upper(s));
    forall i | 0 <= i < |text|
      ensures Upper(text)[i] == text[i]
    {
      assert text[i] == Upper(s)[i];
    }
  }

  /** With only blanks and one more character before it, an occurrence of
      "SYS" at `p + 1` is the first one. */
  lemma FindAfterBlanks(s: string, p: int)
    requires 0 <= p && OccursAt(s, "SYS", p + 1)
    requires forall i :: 0 <= i < p ==> IsSpace(s[i])
    ensures Find(s, "SYS") == p + 1
  {
    var r := Find(s, "SYS");
    forall k | 0 <= k <= p
      ensures !OccursAt(s, "SYS", k)
    {
      OccursSys(s, k);
    }
  }

  /** The first occurrence of a non-blank character that follows only
      blanks is where it stands. */
  lemma FindCharAfterBlanks(s: string, p: int, c: char)
    requires 0 <= p < |s| && s[p] == c && !IsSpace(c)
    requires forall i :: 0 <= i < p ==> IsSpace(s[i])
    ensures Find(s, [c]) == p
  {
    assert OccursAt(s, [c], p) by { assert s[p..p + 1] == [c]; }
    forall k | 0 <= k < p
      ensures !OccursAt(s, [c], k)
    {
      assert IsSpace(s[k]);
    }
  }

  /** A character that occurs in `s` is found. */
  lemma FindPresent(s: string, c: char)
    requires c in s
    ensures 0 <= Find(s, [c]) < |s| && s[Find(s, [c])] == c
  {
    var k :| 0 <= k < |s| && s[k] == c;
    assert OccursAt(s, [c], k) by { assert s[k..k + 1] == [c]; }
    var r := Find(s, [c]);
    assert r != -1;
    assert s[r..r + 1] == [c];
  }

  /** Overwriting the status character of a canonical text with another
      status character keeps the text canonical. */
  lemma FindAfterStatus(s: string, p: int, c: char)
    requires 0 <= p < |s| && p == StatusPos(s) && IsStatusChar(s[p]) && IsStatusChar(c)
    requires forall i :: 0 <= i < p ==> IsSpace(s[i])
    ensures StatusPos(s[p := c]) == p
  {
    assert OccursAt(s, "SYS", p + 1);
    var t := s[p := c];
    assert t[p + 1..p + 4] == s[p + 1..p + 4];
    FindAfterBlanks(t, p);
  }
}
