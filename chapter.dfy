/** A chapter of a `.dat` input deck: an ordered list of names, each naming
    one of the chapter's programs or system directives, kept in two
    dictionaries.  Names are compared upper-cased. */
module Chapter {
  import opened Failures
  import opened Builtins
  import opened Directive
  import opened Program

  /** The directive status a chapter-wide switch moves to. */
  function Target(active: bool): Status
  {
    if active then On else Off
  }

  /** A directive's text after it has been switched to `st`. */
  function Switched(content: string, from: Status, st: Status): string
  {
    if from == st then content else Rewritten(content, from, st)
  }

  /** The largest position at or after `lo` whose upper-cased name is a
      key, searched from the end as `get_last_program` does. */
  function LastIndexFrom(order: seq<string>, keys: set<string>, lo: nat): (r: Result<nat>)
    ensures r.Ok? <==> exists i :: lo <= i < |order| && Upper(order[i]) in keys
    ensures r.Ok? ==> lo <= r.value < |order| && Upper(order[r.value]) in keys &&
                      forall j :: r.value < j < |order| ==> Upper(order[j]) !in keys
    ensures r.Err? ==> r.failure == RuntimeError
    decreases |order|
  {
    if |order| <= lo then Err(RuntimeError)
    else if Upper(order[|order| - 1]) in keys then Ok(|order| - 1)
    else
      var r := LastIndexFrom(order[..|order| - 1], keys, lo);
      assert forall i :: lo <= i < |order| - 1 ==> order[..|order| - 1][i] == order[i];
      r
  }

  /** The chapter text: a header line carrying the activity flag, then
      every item followed by a blank line. */
  function Header(active: bool, name: string): string
  {
    "!" + [Flag(active)] + "!CHAPTER " + name + "\n\n"
  }

  /** The two dictionaries' insertion orders list their keys once each,
      the keys are upper-cased, and the chapter's order list holds exactly
      the keys of both. */
  ghost predicate Consistent(order: seq<string>, programKeys: seq<string>, programNames: set<string>,
                             directiveKeys: seq<string>, directiveNames: set<string>)
  {
    Unique(programKeys) && (forall k :: k in programNames <==> k in programKeys) &&
    Unique(directiveKeys) && (forall k :: k in directiveNames <==> k in directiveKeys) &&
    multiset(order) == multiset(programKeys) + multiset(directiveKeys) &&
    (forall k :: k in programNames ==> Upper(k) == k) &&
    (forall k :: k in directiveNames ==> Upper(k) == k)
  }

  /** Registering a new upper-cased key, as a program or as a directive,
      keeps the registry consistent. */
  lemma PutKeepsConsistent(order: seq<string>, programKeys: seq<string>, programNames: set<string>,
                           directiveKeys: seq<string>, directiveNames: set<string>,
                           key: string, at: nat, asProgram: bool)
    requires Consistent(order, programKeys, programNames, directiveKeys, directiveNames)
    requires Upper(key) == key && at <= |order|
    requires if asProgram then key !in programNames else key !in directiveNames
    ensures asProgram ==>
      Consistent(Insert(order, at, key), programKeys + [key], programNames + {key}, directiveKeys, directiveNames)
    ensures !asProgram ==>
      Consistent(Insert(order, at, key), programKeys, programNames, directiveKeys + [key], directiveNames + {key})
  {
    InsertMultiset(order, at, key);
  }

  /** Dropping a program key keeps the registry consistent. */
  lemma DropKeepsConsistent(order: seq<string>, programKeys: seq<string>, programNames: set<string>,
                            directiveKeys: seq<string>, directiveNames: set<string>, key: string)
    requires Consistent(order, programKeys, programNames, directiveKeys, directiveNames)
    requires key in programNames
    ensures key in order && key in programKeys
    ensures Consistent(Remove(order, key).value, Remove(programKeys, key).value, programNames - {key},
                       directiveKeys, directiveNames)
  {
    assert key in multiset(order);
    RemoveUnique(programKeys, key);
  }

  class SofistikChapter {
    var isActive: bool
    var name: string
    var order: seq<string>
    var programs: map<string, SofistikProgram>
    var directives: map<string, SystemDirective>
    /** The insertion order of the two dictionaries, which `turn_on` and
        `turn_off` follow. */
    var programKeys: seq<string>
    var directiveKeys: seq<string>

    /** Every name in the order list is one program or one directive key,
        and keys are stored upper-cased. */
    ghost predicate Registry()
      reads this`order, this`programKeys, this`programs, this`directiveKeys, this`directives
    {
      Consistent(order, programKeys, programs.Keys, directiveKeys, directives.Keys)
    }

    /** The registry is consistent and every directive is well formed. */
    ghost predicate Valid()
      reads this`order, this`programKeys, this`programs, this`directiveKeys, this`directives
      reads directives.Values
    {
      Registry() && forall d :: d in directives.Values ==> d.Valid()
    }

    /** `SOFiSTiKChapter(name, is_active)`. */
    constructor (name: string, isActive: bool)
      ensures Valid() && this.name == Upper(name) && this.isActive == isActive
      ensures order == [] && programs == map[] && directives == map[]
    {
      this.isActive := isActive;
      this.name := Upper(name);
      order := [];
      programs := map[];
      directives := map[];
      programKeys := [];
      directiveKeys := [];
    }

    /** `has_program`: case-insensitive. */
    predicate HasProgram(programName: string)
      reads this
    {
      Upper(programName) in programs
    }

    /** `has_directive`: case-insensitive. */
    predicate HasDirective(directiveName: string)
      reads this
    {
      Upper(directiveName) in directives
    }

    /** `get_program`. */
    function GetProgram(programName: string): (r: Result<SofistikProgram>)
      reads this
      ensures r.Ok? <==> HasProgram(programName)
      ensures r.Ok? ==> r.value == programs[Upper(programName)]
      ensures r.Err? ==> r.failure == RuntimeError
    {
      if HasProgram(programName) then Ok(programs[Upper(programName)]) else Err(RuntimeError)
    }

    /** `get_directive`. */
    function GetDirective(directiveName: string): (r: Result<SystemDirective>)
      reads this
      ensures r.Ok? <==> HasDirective(directiveName)
      ensures r.Ok? ==> r.value == directives[Upper(directiveName)]
      ensures r.Err? ==> r.failure == RuntimeError
    {
      if HasDirective(directiveName) then Ok(directives[Upper(directiveName)]) else Err(RuntimeError)
    }

    /** `get_program_index`: the position of a program in the order list. */
    function GetProgramIndex(programName: string): (r: Result<nat>)
      requires Valid()
      reads this, directives.Values
      ensures r.Ok? <==> HasProgram(programName)
      ensures r.Ok? ==> r.value < |order| && order[r.value] == Upper(programName) &&
                        Upper(programName) !in order[..r.value]
      ensures r.Err? ==> r.failure == RuntimeError
    {
      if HasProgram(programName) then
        var key := Upper(programName);
        assert key in multiset(order);
        IndexOf(order, key)
      else Err(RuntimeError)
    }

    /** Registers a program under its name at position `at` of the order list. */
    method PutProgram(p: SofistikProgram, at: nat)
      requires Valid() && at <= |order| && Upper(p.name) == p.name && p.name !in programs
      modifies this
      ensures Valid()
      ensures programs == old(programs)[p.name := p] && order == Insert(old(order), at, p.name)
      ensures directives == old(directives) && isActive == old(isActive) && name == old(name)
    {
      PutKeepsConsistent(order, programKeys, programs.Keys, directiveKeys, directives.Keys, p.name, at, true);
      programs := programs[p.name := p];
      order := Insert(order, at, p.name);
      programKeys := programKeys + [p.name];
      assert programs.Keys == old(programs).Keys + {p.name};
    }

    /** Registers a directive under its text at position `at` of the order list. */
    method PutDirective(d: SystemDirective, at: nat)
      requires Valid() && d.Valid() && at <= |order| && d.content !in directives
      modifies this
      ensures Valid()
      ensures directives == old(directives)[d.content := d] && order == Insert(old(order), at, d.content)
      ensures programs == old(programs) && isActive == old(isActive) && name == old(name)
    {
      PutKeepsConsistent(order, programKeys, programs.Keys, directiveKeys, directives.Keys, d.content, at, false);
      directives := directives[d.content := d];
      order := Insert(order, at, d.content);
      directiveKeys := directiveKeys + [d.content];
      assert directives.Keys == old(directives).Keys + {d.content};
      assert directives.Values <= old(directives).Values + {d};
    }

    /** `add_program`: appended at the end, unless a program of that name
        exists. */
    method AddProgram(p: SofistikProgram) returns (r: Outcome)
      requires Valid() && Upper(p.name) == p.name
      modifies this
      ensures Valid()
      ensures r == Done <==> p.name !in old(programs)
      ensures r.Raised? ==> r.failure == RuntimeError && unchanged(this)
      ensures r == Done ==> programs == old(programs)[p.name := p] && order == old(order) + [p.name]
      ensures directives == old(directives) && isActive == old(isActive) && name == old(name)
    {
      if HasProgram(p.name) {
        return Raised(RuntimeError);
      }
      PutProgram(p, |order|);
      r := Done;
    }

    /** `add_program_after`: the target must be listed (`ValueError`), then
        the name must be new (`RuntimeError`). */
    method AddProgramAfter(p: SofistikProgram, targetName: string) returns (r: Outcome)
      requires Valid() && Upper(p.name) == p.name
      modifies this
      ensures Valid()
      ensures Upper(targetName) !in old(order) ==> r == Raised(ValueError) && unchanged(this)
      ensures Upper(targetName) in old(order) && p.name in old(programs) ==>
        r == Raised(RuntimeError) && unchanged(this)
      ensures Upper(targetName) in old(order) && p.name !in old(programs) ==>
        var i := IndexOf(old(order), Upper(targetName)).value;
        r == Done && programs == old(programs)[p.name := p] &&
        order == old(order)[..i + 1] + [p.name] + old(order)[i + 1..]
      ensures directives == old(directives) && isActive == old(isActive) && name == old(name)
    {
      match IndexOf(order, Upper(targetName))
      case Err(e) =>
        r := Raised(e);
      case Ok(i) =>
        if HasProgram(p.name) {
          return Raised(RuntimeError);
        }
        PutProgram(p, i + 1);
        r := Done;
    }

    /** `add_program_before`. */
    method AddProgramBefore(p: SofistikProgram, targetName: string) returns (r: Outcome)
      requires Valid() && Upper(p.name) == p.name
      modifies this
      ensures Valid()
      ensures Upper(targetName) !in old(order) ==> r == Raised(ValueError) && unchanged(this)
      ensures Upper(targetName) in old(order) && p.name in old(programs) ==>
        r == Raised(RuntimeError) && unchanged(this)
      ensures Upper(targetName) in old(order) && p.name !in old(programs) ==>
        var i := IndexOf(old(order), Upper(targetName)).value;
        r == Done && programs == old(programs)[p.name := p] &&
        order == old(order)[..i] + [p.name] + old(order)[i..]
      ensures directives == old(directives) && isActive == old(isActive) && name == old(name)
    {
      match IndexOf(order, Upper(targetName))
      case Err(e) =>
        r := Raised(e);
      case Ok(i) =>
        if HasProgram(p.name) {
          return Raised(RuntimeError);
        }
        PutProgram(p, i);
        r := Done;
    }

    /** `create_new_program`: an empty program of the given type, appended
        at the end; an unknown type or an existing name raises `RuntimeError`. */
    method CreateNewProgram(programName: string, progType: string, active: bool) returns (r: Outcome)
      requires Valid()
      modifies this
      ensures Valid()
      ensures r == Done <==> Upper(progType) in Types && Upper(programName) !in old(programs)
      ensures r.Raised? ==> r.failure == RuntimeError && unchanged(this)
      ensures r == Done ==> (Upper(programName) in programs &&
        var p := programs[Upper(programName)];
        fresh(p) && programs == old(programs)[Upper(programName) := p] &&
        order == old(order) + [Upper(programName)] &&
        p.content == [ProgRow(active, Upper(progType)), "\tHEAD " + Upper(programName), "END"] &&
        p.isActive == active && p.progType == Upper(progType))
      ensures directives == old(directives) && isActive == old(isActive) && name == old(name)
    {
      var created := SofistikProgram.CreateEmpty(programName, progType, active);
      if created.Err? {
        return Raised(created.failure);
      }
      UpperIdempotent(programName);
      r := AddProgram(created.value);
    }

    /** `create_new_program_after`: the program is built first, so an
        unknown type raises `RuntimeError` before the target is looked up. */
    method CreateNewProgramAfter(targetName: string, programName: string, progType: string, active: bool)
      returns (r: Outcome)
      requires Valid()
      modifies this
      ensures Valid()
      ensures Upper(progType) !in Types ==> r == Raised(RuntimeError) && unchanged(this)
      ensures Upper(progType) in Types && Upper(targetName) !in old(order) ==>
        r == Raised(ValueError) && unchanged(this)
      ensures Upper(progType) in Types && Upper(targetName) in old(order) && Upper(programName) in old(programs) ==>
        r == Raised(RuntimeError) && unchanged(this)
      ensures r == Done <==>
        Upper(progType) in Types && Upper(targetName) in old(order) && Upper(programName) !in old(programs)
      ensures r == Done ==> (Upper(programName) in programs &&
        var p := programs[Upper(programName)];
        var i := IndexOf(old(order), Upper(targetName)).value;
        fresh(p) && programs == old(programs)[Upper(programName) := p] &&
        order == old(order)[..i + 1] + [Upper(programName)] + old(order)[i + 1..] &&
        p.content == [ProgRow(active, Upper(progType)), "\tHEAD " + Upper(programName), "END"] &&
        p.isActive == active && p.progType == Upper(progType))
      ensures directives == old(directives) && isActive == old(isActive) && name == old(name)
    {
      var created := SofistikProgram.CreateEmpty(programName, progType, active);
      if created.Err? {
        return Raised(created.failure);
      }
      UpperIdempotent(programName);
      r := AddProgramAfter(created.value, targetName);
    }

    /** `create_new_program_before`. */
    method CreateNewProgramBefore(targetName: string, programName: string, progType: string, active: bool)
      returns (r: Outcome)
      requires Valid()
      modifies this
      ensures Valid()
      ensures Upper(progType) !in Types ==> r == Raised(RuntimeError) && unchanged(this)
      ensures Upper(progType) in Types && Upper(targetName) !in old(order) ==>
        r == Raised(ValueError) && unchanged(this)
      ensures Upper(progType) in Types && Upper(targetName) in old(order) && Upper(programName) in old(programs) ==>
        r == Raised(RuntimeError) && unchanged(this)
      ensures r == Done <==>
        Upper(progType) in Types && Upper(targetName) in old(order) && Upper(programName) !in old(programs)
      ensures r == Done ==> (Upper(programName) in programs &&
        var p := programs[Upper(programName)];
        var i := IndexOf(old(order), Upper(targetName)).value;
        fresh(p) && programs == old(programs)[Upper(programName) := p] &&
        order == old(order)[..i] + [Upper(programName)] + old(order)[i..] &&
        p.content == [ProgRow(active, Upper(progType)), "\tHEAD " + Upper(programName), "END"] &&
        p.isActive == active && p.progType == Upper(progType))
      ensures directives == old(directives) && isActive == old(isActive) && name == old(name)
    {
      var created := SofistikProgram.CreateEmpty(programName, progType, active);
      if created.Err? {
        return Raised(created.failure);
      }
      UpperIdempotent(programName);
      r := AddProgramBefore(created.value, targetName);
    }

    /** `add_directive`: appended at the end under its text, unless a
        directive with that text exists. */
    method AddDirective(d: SystemDirective) returns (r: Outcome)
      requires Valid() && d.Valid()
      modifies this
      ensures Valid()
      ensures r == Done <==> d.content !in old(directives)
      ensures r.Raised? ==> r.failure == RuntimeError && unchanged(this)
      ensures r == Done ==> directives == old(directives)[d.content := d] && order == old(order) + [d.content]
      ensures programs == old(programs) && isActive == old(isActive) && name == old(name)
    {
      if HasDirective(d.content) {
        return Raised(RuntimeError);
      }
      PutDirective(d, |order|);
      r := Done;
    }

    /** `add_directive_after`. */
    method AddDirectiveAfter(d: SystemDirective, targetName: string) returns (r: Outcome)
      requires Valid() && d.Valid()
      modifies this
      ensures Valid()
      ensures Upper(targetName) !in old(order) ==> r == Raised(ValueError) && unchanged(this)
      ensures Upper(targetName) in old(order) && d.content in old(directives) ==>
        r == Raised(RuntimeError) && unchanged(this)
      ensures Upper(targetName) in old(order) && d.content !in old(directives) ==>
        var i := IndexOf(old(order), Upper(targetName)).value;
        r == Done && directives == old(directives)[d.content := d] &&
        order == old(order)[..i + 1] + [d.content] + old(order)[i + 1..]
      ensures programs == old(programs) && isActive == old(isActive) && name == old(name)
    {
      match IndexOf(order, Upper(targetName))
      case Err(e) =>
        r := Raised(e);
      case Ok(i) =>
        if HasDirective(d.content) {
          return Raised(RuntimeError);
        }
        PutDirective(d, i + 1);
        r := Done;
    }

    /** `add_directive_before`. */
    method AddDirectiveBefore(d: SystemDirective, targetName: string) returns (r: Outcome)
      requires Valid() && d.Valid()
      modifies this
      ensures Valid()
      ensures Upper(targetName) !in old(order) ==> r == Raised(ValueError) && unchanged(this)
      ensures Upper(targetName) in old(order) && d.content in old(directives) ==>
        r == Raised(RuntimeError) && unchanged(this)
      ensures Upper(targetName) in old(order) && d.content !in old(directives) ==>
        var i := IndexOf(old(order), Upper(targetName)).value;
        r == Done && directives == old(directives)[d.content := d] &&
        order == old(order)[..i] + [d.content] + old(order)[i..]
      ensures programs == old(programs) && isActive == old(isActive) && name == old(name)
    {
      match IndexOf(order, Upper(targetName))
      case Err(e) =>
        r := Raised(e);
      case Ok(i) =>
        if HasDirective(d.content) {
          return Raised(RuntimeError);
        }
        PutDirective(d, i);
        r := Done;
    }

    /** `remove_program`: the name leaves the dictionary and its first
        occurrence leaves the order list. */
    method RemoveProgram(programName: string) returns (r: Outcome)
      requires Valid()
      modifies this
      ensures Valid()
      ensures r == Done <==> Upper(programName) in old(programs)
      ensures r.Raised? ==> r.failure == RuntimeError && unchanged(this)
      ensures r == Done ==> (programs == old(programs) - {Upper(programName)} &&
        Remove(old(order), Upper(programName)) == Ok(order))
      ensures directives == old(directives) && isActive == old(isActive) && name == old(name)
    {
      var key := Upper(programName);
      if key !in programs {
        return Raised(RuntimeError);
      }
      DropProgram(key);
      r := Done;
    }

    /** Unregisters the program stored under `key`. */
    method DropProgram(key: string)
      requires Registry() && key in programs
      modifies this
      ensures Registry()
      ensures programs == old(programs) - {key} && Remove(old(order), key) == Ok(order)
      ensures directives == old(directives) && isActive == old(isActive) && name == old(name)
    {
      DropKeepsConsistent(order, programKeys, programs.Keys, directiveKeys, directives.Keys, key);
      programs := programs - {key};
      order := Remove(order, key).value;
      programKeys := Remove(programKeys, key).value;
    }

    /** `copy_program_to`: the target program receives the source's rows,
        then its own name in row 1, the source's type in row 0 and the
        source's activity. */
    method CopyProgramTo(source: string, target: string) returns (r: Outcome)
      requires Valid()
      modifies programs.Values
      ensures !old(HasProgram(source)) || !old(HasProgram(target)) ==>
        r == Raised(RuntimeError) && forall p :: p in programs.Values ==> unchanged(p)
      ensures HasProgram(target) ==>
        forall p :: p in programs.Values && p != programs[Upper(target)] ==> unchanged(p)
      ensures (old(HasProgram(source)) && old(HasProgram(target)) &&
        programs[Upper(source)] == programs[Upper(target)]) ==>
        var dst := programs[Upper(target)];
        r == Raised(IndexError) && dst.content == [RStrip(Upper("HEAD " + Upper(target)))] &&
        dst.name == [] && dst.progType == [] && dst.isActive == old(dst.isActive)
      ensures (old(HasProgram(source)) && old(HasProgram(target)) &&
        programs[Upper(source)] != programs[Upper(target)]) ==>
        var src := programs[Upper(source)];
        var dst := programs[Upper(target)];
        unchanged(src) &&
        (|old(src.content)| < 2 ==>
          r == Raised(IndexError) &&
          dst.content == UpperRows(old(src.content)) + [RStrip(Upper("HEAD " + Upper(target)))] &&
          dst.name == [] && dst.progType == [] && dst.isActive == old(dst.isActive)) &&
        (|old(src.content)| >= 2 && Upper(old(src.progType)) !in Types ==>
          r == Raised(RuntimeError) &&
          dst.content == UpperRows(old(src.content))[1 := RStrip(Upper("HEAD " + Upper(target)))] &&
          dst.name == Upper(target) && dst.progType == [] && dst.isActive == old(dst.isActive)) &&
        (|old(src.content)| >= 2 && Upper(old(src.progType)) in Types ==>
          r == Done &&
          dst.content == Retagged(UpperRows(old(src.content)), old(src.isActive), old(src.progType), target) &&
          dst.name == Upper(target) && dst.progType == Upper(old(src.progType)) &&
          dst.isActive == old(src.isActive))
    {
      if !HasProgram(source) || !HasProgram(target) {
        return Raised(RuntimeError);
      }
      var dst := programs[Upper(target)];
      var src := programs[Upper(source)];
      r := CopyInto(src, dst, target);
    }

    /** `get_last_program`: scans from the last position down to position 2;
        positions 0 and 1 are never looked at. */
    method GetLastProgram() returns (r: Result<SofistikProgram>)
      ensures r.Ok? <==> LastIndexFrom(order, programs.Keys, 2).Ok?
      ensures r.Ok? ==> r.value == programs[Upper(order[LastIndexFrom(order, programs.Keys, 2).value])]
      ensures r.Err? ==> r.failure == RuntimeError
    {
      if order != [] {
        var index := |order| - 1;
        while index > 1
          invariant 0 <= index <= |order| - 1
          invariant forall j :: index < j < |order| ==> Upper(order[j]) !in programs
        {
          if HasProgram(order[index]) {
            return Ok(programs[Upper(order[index])]);
          }
          index := index - 1;
        }
      }
      r := Err(RuntimeError);
    }

    /** `serialize`: the header, then each listed program or directive,
        each followed by a blank line. */
    function Serialize(): (r: Result<string>)
      reads this, programs.Values, directives.Values
      ensures Valid() ==> r.Ok?
    {
      match Items(order)
      case Err(e) => Err(e)
      case Ok(body) => Ok(Header(isActive, name) + body)
    }

    /** The serialized items of `names`: a program if the name is one,
        otherwise a directive; a name that is neither raises. */
    function Items(names: seq<string>): (r: Result<string>)
      reads this, programs.Values, directives.Values
      ensures Valid() && multiset(names) <= multiset(order) ==> r.Ok?
    {
      if names == [] then Ok([])
      else
        var item :=
          if HasProgram(names[0]) then Ok(programs[Upper(names[0])].Serialize())
          else if HasDirective(names[0]) then Ok(directives[Upper(names[0])].Serialize())
          else Err(RuntimeError);
        assert Valid() && multiset(names) <= multiset(order) ==> item.Ok? by {
          if Valid() && multiset(names) <= multiset(order) {
            assert names[0] in multiset(order);
            assert names[0] in programKeys || names[0] in directiveKeys;
          }
        }
        assert multiset(names[1..]) <= multiset(names) by {
          assert names == [names[0]] + names[1..];
        }
        match item
        case Err(e) => Err(e)
        case Ok(text) =>
          match Items(names[1..])
          case Err(e) => Err(e)
          case Ok(rest) => Ok(text + "\n\n" + rest)
    }

    /** `turn_on`. */
    method TurnOn() returns (r: Outcome)
      requires Valid()
      modifies this, programs.Values, directives.Values
      ensures Valid() && isActive
      ensures Unchanged(old(programs), old(directives), old(order), old(name))
      ensures r == Done <==> forall p :: p in programs.Values ==> WithFlag(old(p.content), '+').Ok?
      ensures r.Raised? ==> r.failure == IndexError
      ensures r == Done ==> forall p :: p in programs.Values ==>
        p.content == WithFlag(old(p.content), '+').value && p.isActive
      ensures r == Done ==> forall d :: d in directives.Values ==>
        d.Status() == On && d.content == Switched(old(d.content), old(d.Status()), On)
    {
      r := Turn(true);
    }

    /** `turn_off`. */
    method TurnOff() returns (r: Outcome)
      requires Valid()
      modifies this, programs.Values, directives.Values
      ensures Valid() && !isActive
      ensures Unchanged(old(programs), old(directives), old(order), old(name))
      ensures r == Done <==> forall p :: p in programs.Values ==> WithFlag(old(p.content), '-').Ok?
      ensures r.Raised? ==> r.failure == IndexError
      ensures r == Done ==> forall p :: p in programs.Values ==>
        p.content == WithFlag(old(p.content), '-').value && !p.isActive
      ensures r == Done ==> forall d :: d in directives.Values ==>
        d.Status() == Off && d.content == Switched(old(d.content), old(d.Status()), Off)
    {
      r := Turn(false);
    }

    /** What `turn_on` and `turn_off` share: the chapter's flag is set, then
        its programs and its directives are switched. */
    method Turn(active: bool) returns (r: Outcome)
      requires Valid()
      modifies this, programs.Values, directives.Values
      ensures Valid() && isActive == active
      ensures Unchanged(old(programs), old(directives), old(order), old(name))
      ensures r == Done <==> forall p :: p in programs.Values ==> WithFlag(old(p.content), Flag(active)).Ok?
      ensures r.Raised? ==> r.failure == IndexError
      ensures r == Done ==> forall p :: p in programs.Values ==>
        p.content == WithFlag(old(p.content), Flag(active)).value && p.isActive == active
      ensures r == Done ==> forall d :: d in directives.Values ==>
        d.Status() == Target(active) && d.content == Switched(old(d.content), old(d.Status()), Target(active))
    {
      isActive := active;
      r := SwitchContents(active);
    }

    /** The programs, then (unless one raised) the directives. */
    method SwitchContents(active: bool) returns (r: Outcome)
      requires Valid()
      modifies programs.Values, directives.Values
      ensures Valid()
      ensures r == Done <==> forall p :: p in programs.Values ==> WithFlag(old(p.content), Flag(active)).Ok?
      ensures r.Raised? ==> r.failure == IndexError
      ensures r == Done ==> forall p :: p in programs.Values ==>
        p.content == WithFlag(old(p.content), Flag(active)).value && p.isActive == active
      ensures r == Done ==> forall d :: d in directives.Values ==>
        d.Status() == Target(active) && d.content == Switched(old(d.content), old(d.Status()), Target(active))
    {
      r := SwitchOwnPrograms(active);
      if r.Raised? {
        return;
      }
      SwitchOwnDirectives(active);
    }

    /** The registry itself is left as it was. */
    predicate Unchanged(programs0: map<string, SofistikProgram>, directives0: map<string, SystemDirective>,
                        order0: seq<string>, name0: string)
      reads this
    {
      programs == programs0 && directives == directives0 && order == order0 && name == name0
    }

    /** Switches every program in dictionary order, stopping at the first
        that raises. */
    method SwitchOwnPrograms(active: bool) returns (r: Outcome)
      requires Registry()
      modifies programs.Values
      ensures r == Done <==> forall p :: p in programs.Values ==> WithFlag(old(p.content), Flag(active)).Ok?
      ensures r.Raised? ==> r.failure == IndexError
      ensures r == Done ==> forall p :: p in programs.Values ==>
        p.content == WithFlag(old(p.content), Flag(active)).value && p.isActive == active
    {
      r := SwitchAllPrograms(programKeys, programs, active);
    }

    /** Switches every directive in dictionary order. */
    method SwitchOwnDirectives(active: bool)
      requires Valid()
      modifies directives.Values
      ensures Valid()
      ensures forall d :: d in directives.Values ==>
        d.Status() == Target(active) && d.content == Switched(old(d.content), old(d.Status()), Target(active))
    {
      SwitchAllDirectives(directiveKeys, directives, active);
    }
  }

  /** A dictionary's values in the insertion order of its keys, as
      `dict.values()` yields them. */
  function InOrder<V>(keys: seq<string>, m: map<string, V>): (r: seq<V>)
    requires forall k :: k in keys ==> k in m
    ensures |r| == |keys| && forall i :: 0 <= i < |keys| ==> r[i] == m[keys[i]]
  {
    if keys == [] then [] else [m[keys[0]]] + InOrder(keys[1..], m)
  }

  /** When the key order lists every key, the ordered values are exactly
      the dictionary's values. */
  lemma InOrderValues<V>(keys: seq<string>, m: map<string, V>)
    requires forall k :: k in m <==> k in keys
    ensures forall v :: v in InOrder(keys, m) <==> v in m.Values
  {
    var r := InOrder(keys, m);
    forall v | v in m.Values
      ensures v in r
    {
      var k :| k in m && m[k] == v;
      var i :| 0 <= i < |keys| && keys[i] == k;
      assert r[i] == v;
    }
  }

  /** Every program of the dictionary, in the order of its keys. */
  method SwitchAllPrograms(keys: seq<string>, programs: map<string, SofistikProgram>, active: bool)
    returns (r: Outcome)
    requires forall k :: k in programs <==> k in keys
    modifies programs.Values
    ensures r == Done <==> forall p :: p in programs.Values ==> WithFlag(old(p.content), Flag(active)).Ok?
    ensures r.Raised? ==> r.failure == IndexError
    ensures r == Done ==> forall p :: p in programs.Values ==>
      p.content == WithFlag(old(p.content), Flag(active)).value && p.isActive == active
  {
    InOrderValues(keys, programs);
    r := SwitchPrograms(InOrder(keys, programs), active);
  }

  /** Every directive of the dictionary, in the order of its keys. */
  method SwitchAllDirectives(keys: seq<string>, directives: map<string, SystemDirective>, active: bool)
    requires forall k :: k in directives <==> k in keys
    requires forall d :: d in directives.Values ==> d.Valid()
    modifies directives.Values
    ensures forall d :: d in directives.Values ==> (d.Valid() && d.Status() == Target(active) &&
      d.content == Switched(old(d.content), old(d.Status()), Target(active)))
  {
    InOrderValues(keys, directives);
    SwitchDirectives(InOrder(keys, directives), active);
  }

  /** The program loop of `turn_on`/`turn_off`: each program in turn, stopping
      at the first one that raises.  A program listed twice is switched
      twice, which changes nothing the second time. */
  method SwitchPrograms(ps: seq<SofistikProgram>, active: bool) returns (r: Outcome)
    modifies set p | p in ps
    ensures r == Done <==> forall p :: p in ps ==> WithFlag(old(p.content), Flag(active)).Ok?
    ensures r.Raised? ==> r.failure == IndexError
    ensures r == Done ==> forall p :: p in ps ==>
      p.content == WithFlag(old(p.content), Flag(active)).value && p.isActive == active
  {
    var c := Flag(active);
    var k := 0;
    while k < |ps|
      invariant 0 <= k <= |ps|
      invariant forall p :: p in ps[..k] ==>
        WithFlag(old(p.content), c).Ok? && p.content == WithFlag(old(p.content), c).value && p.isActive == active
      invariant forall p :: p in ps && p !in ps[..k] ==> p.content == old(p.content)
    {
      var p := ps[k];
      if p in ps[..k] {
        WithFlagIdempotent(old(p.content), c);
      }
      var o: Outcome;
      if active {
        o := p.TurnOn();
      } else {
        o := p.TurnOff();
      }
      if o.Raised? {
        return o;
      }
      assert ps[..k + 1] == ps[..k] + [p];
      k := k + 1;
    }
    assert ps[..k] == ps;
    r := Done;
  }

  /** The directive loop of `turn_on`/`turn_off`. */
  method SwitchDirectives(ds: seq<SystemDirective>, active: bool)
    requires forall d :: d in ds ==> d.Valid()
    modifies set d | d in ds
    ensures forall d :: d in ds ==> (d.Valid() && d.Status() == Target(active) &&
      d.content == Switched(old(d.content), old(d.Status()), Target(active)))
  {
    var st := Target(active);
    var k := 0;
    while k < |ds|
      invariant 0 <= k <= |ds|
      invariant forall d :: d in ds ==> d.Valid()
      invariant forall d :: d in ds[..k] ==>
        d.Status() == st && d.content == Switched(old(d.content), old(d.Status()), st)
      invariant forall d :: d in ds && d !in ds[..k] ==> d.content == old(d.content) && d.Status() == old(d.Status())
    {
      var d := ds[k];
      if active {
        d.TurnOn();
      } else {
        d.TurnOff();
      }
      assert ds[..k + 1] == ds[..k] + [d];
      k := k + 1;
    }
    assert ds[..k] == ds;
  }

  /** The rows a copied program ends with: its PROG row rebuilt from the
      source's flag and type, and the target's own HEAD row. */
  function Retagged(rows: seq<string>, active: bool, progType: string, target: string): (r: seq<string>)
    requires |rows| >= 2
    ensures |r| == |rows| && r[0] == ProgRow(active, Upper(progType)) &&
            r[1] == RStrip(Upper("HEAD " + Upper(target))) && r[2..] == rows[2..]
  {
    rows[0 := ProgRow(active, Upper(progType))][1 := RStrip(Upper("HEAD " + Upper(target)))]
  }

  /** The loop of `copy_program_to` that appends every source row. */
  method FillRows(dst: SofistikProgram, rows: seq<string>)
    modifies dst
    ensures dst.content == old(dst.content) + UpperRows(rows)
    ensures dst.name == old(dst.name) && dst.progType == old(dst.progType) && dst.isActive == old(dst.isActive)
  {
    var k := 0;
    while k < |rows|
      invariant 0 <= k <= |rows|
      invariant dst.content == old(dst.content) + UpperRows(rows[..k])
      invariant dst.name == old(dst.name) && dst.progType == old(dst.progType) && dst.isActive == old(dst.isActive)
    {
      var _ := dst.AddRow(Mutable(rows[k]));
      assert rows[..k + 1] == rows[..k] + [rows[k]];
      k := k + 1;
    }
    assert rows[..k] == rows;
  }

  /** The body of `copy_program_to` once both programs are found: `dst` is
      cleared, refilled with the rows `src` holds by then and retagged, so a
      program copied onto itself is left with no rows but the header. */
  method CopyInto(src: SofistikProgram, dst: SofistikProgram, target: string) returns (r: Outcome)
    modifies dst
    ensures src == dst ==>
      r == Raised(IndexError) && dst.content == [RStrip(Upper("HEAD " + Upper(target)))] &&
      dst.name == [] && dst.progType == [] && dst.isActive == old(dst.isActive)
    ensures src != dst && |src.content| < 2 ==>
      r == Raised(IndexError) && dst.content == UpperRows(src.content) + [RStrip(Upper("HEAD " + Upper(target)))] &&
      dst.name == [] && dst.progType == [] && dst.isActive == old(dst.isActive)
    ensures src != dst && |src.content| >= 2 && Upper(src.progType) !in Types ==>
      r == Raised(RuntimeError) && dst.content == UpperRows(src.content)[1 := RStrip(Upper("HEAD " + Upper(target)))] &&
      dst.name == Upper(target) && dst.progType == [] && dst.isActive == old(dst.isActive)
    ensures src != dst && |src.content| >= 2 && Upper(src.progType) in Types ==>
      r == Done && dst.content == Retagged(UpperRows(src.content), src.isActive, src.progType, target) &&
      dst.name == Upper(target) && dst.progType == Upper(src.progType) && dst.isActive == src.isActive
  {
    dst.Clear();
    ghost var rows := if src == dst then [] else src.content;
    FillRows(dst, src.content);
    assert dst.content == UpperRows(rows);
    r := Retag(dst, target, src.progType, src.isActive);
  }

  /** The tail of `copy_program_to`: the target's name, then the source's
      type, then the source's activity. */
  method Retag(dst: SofistikProgram, target: string, progType: string, active: bool) returns (r: Outcome)
    modifies dst
    ensures |old(dst.content)| < 2 ==>
      r == Raised(IndexError) && dst.content == old(dst.content) + [RStrip(Upper("HEAD " + Upper(target)))] &&
      dst.name == old(dst.name) && dst.progType == old(dst.progType) && dst.isActive == old(dst.isActive)
    ensures |old(dst.content)| >= 2 && Upper(progType) !in Types ==>
      r == Raised(RuntimeError) && dst.content == old(dst.content)[1 := RStrip(Upper("HEAD " + Upper(target)))] &&
      dst.name == Upper(target) && dst.progType == old(dst.progType) && dst.isActive == old(dst.isActive)
    ensures |old(dst.content)| >= 2 && Upper(progType) in Types ==>
      r == Done && dst.content == Retagged(old(dst.content), active, progType, target) &&
      dst.name == Upper(target) && dst.progType == Upper(progType) && dst.isActive == active
  {
    ghost var rows := dst.content;
    ghost var head := RStrip(Upper("HEAD " + Upper(target)));
    ghost var prog := ProgRow(active, Upper(progType));
    r := dst.SetName(target);
    if r.Raised? {
      return;
    }
    r := dst.SetType(progType);
    if r.Raised? {
      return;
    }
    ghost var typed := dst.content;
    if active {
      r := dst.TurnOn();
    } else {
      r := dst.TurnOff();
    }
    RetaggedSteps(rows, typed, dst.content, active, progType, target);
  }

  /** Renaming, retyping and reflagging, one after the other, give the
      retagged rows whatever the flag was before. */
  lemma RetaggedSteps(rows: seq<string>, typed: seq<string>, flagged: seq<string>,
                      active: bool, progType: string, target: string)
    requires |rows| >= 2
    requires exists was: bool :: typed == rows[1 := RStrip(Upper("HEAD " + Upper(target)))][0 := ProgRow(was, Upper(progType))]
    requires WithFlag(typed, Flag(active)) == Ok(flagged)
    ensures flagged == Retagged(rows, active, progType, target)
  {
    var was: bool :| typed == rows[1 := RStrip(Upper("HEAD " + Upper(target)))][0 := ProgRow(was, Upper(progType))];
    assert ProgRow(was, Upper(progType))[0 := Flag(active)] == ProgRow(active, Upper(progType));
    assert flagged[0] == Retagged(rows, active, progType, target)[0];
    assert flagged[1..] == Retagged(rows, active, progType, target)[1..];
  }

  /** Each row upper-cased, as `add_row` stores the copied rows. */
  function UpperRows(rows: seq<string>): (r: seq<string>)
    ensures |r| == |rows| && forall i :: 0 <= i < |rows| ==> r[i] == Upper(rows[i])
  {
    if rows == [] then [] else [Upper(rows[0])] + UpperRows(rows[1..])
  }

  // ------------------------------------------------------------ laws

  /** Name lookups ignore case. */
  lemma LookupIgnoresCase(c: SofistikChapter, s: string)
    ensures c.HasProgram(Upper(s)) == c.HasProgram(s)
    ensures c.HasDirective(Upper(s)) == c.HasDirective(s)
    ensures c.GetProgram(Upper(s)) == c.GetProgram(s)
  {
    UpperIdempotent(s);
  }

  /** `get_last_program` as written misses a program at position 0 or 1:
      a chapter whose only item is a program raises `RuntimeError`, while a
      scan of every position finds it. */
  lemma LastProgramSkipsFirstTwo(order: seq<string>, keys: set<string>)
    requires |order| == 1 && Upper(order[0]) in keys
    ensures LastIndexFrom(order, keys, 2) == Err(RuntimeError)
    ensures LastIndexFrom(order, keys, 0) == Ok(0)
  {
  }

  /** Scanning every position finds the last program of the chapter. */
  lemma LastProgramFound(order: seq<string>, keys: set<string>, i: nat)
    requires i < |order| && Upper(order[i]) in keys
    ensures LastIndexFrom(order, keys, 0).Ok? && i <= LastIndexFrom(order, keys, 0).value
  {
  }
}
