/** Which object paths are accepted, and as what, told by their parts between slashes. */
module PathLaws {
  import opened Seqs
  import opened Text
  import opened ObjectPaths

  predicate IsNaming(part: string) {
    part != "" && part != "."
  }

  /** Parts without separators or NUL. */
  ghost predicate AreParts(parts: seq<string>) {
    |parts| >= 1 && forall p :: p in parts ==> '/' !in p && '\\' !in p && '\0' !in p
  }

  function Naming(): string -> bool {
    (part: string) => IsNaming(part)
  }

  lemma {:induction false} CleanKeepsNaming(parts: seq<string>)
    ensures Clean(parts) == if ".." in parts then None else Some(Seqs.Filter(parts, Naming()))
    decreases |parts|
  {
    if parts != [] {
      var first, rest := parts[0], parts[1..];
      assert parts == [first] + rest;
      CleanKeepsNaming(rest);
      FilterConcat([first], rest, Naming());
      assert [first][..0] == [];
      assert Seqs.Filter([first], Naming()) == if IsNaming(first) then [first] else [];
      assert [] + Seqs.Filter(rest, Naming()) == Seqs.Filter(rest, Naming());
      assert ".." in parts <==> first == ".." || ".." in rest;
    }
  }

  lemma EmptyPartGoes(parts: seq<string>)
    ensures Clean([""] + parts) == Clean(parts)
  {
    assert ([""] + parts)[1..] == parts;
  }

  lemma OneSlash(s: string)
    requires s != "" && s[0] == '/'
    ensures Clean(Split(s, '/')) == Clean(Split(s[1..], '/'))
  {
    assert s == "" + ['/'] + s[1..];
    SplitFirst("", '/', s[1..]);
    EmptyPartGoes(Split(s[1..], '/'));
  }

  /** Leading slashes only add empty parts. */
  lemma {:induction false} LeadingSlashes(s: string, clean: string -> Option<seq<string>>)
    requires forall t :: t != "" && t[0] == '/' ==> clean(t) == clean(t[1..])
    ensures clean(StripLeading(s)) == clean(s)
  {
    if s != "" && s[0] == '/' {
      LeadingSlashes(s[1..], clean);
    }
  }

  lemma StrippedIsClean(s: string)
    ensures Clean(Split(StripLeading(s), '/')) == Clean(Split(s, '/'))
  {
    var clean := (t: string) => Clean(Split(t, '/'));
    forall t | t != "" && t[0] == '/' ensures clean(t) == clean(t[1..]) {
      OneSlash(t);
    }
    LeadingSlashes(s, clean);
    assert clean(StripLeading(s)) == clean(s);
  }

  lemma {:induction false} JoinHasNo(parts: seq<string>, c: char)
    requires |parts| >= 1 && c != '/' && forall p :: p in parts ==> c !in p
    ensures c !in Join(parts, '/')
  {
    assert parts == [parts[0]] + parts[1..];
    if |parts| > 1 {
      JoinHasNo(parts[1..], c);
    }
  }

  /**
   A path is accepted unless it is empty, longer than 1024 characters, has a part `..` or no
   naming part; it stands for its naming parts.
   */
  lemma AcceptedExactly(parts: seq<string>, value: string)
    requires AreParts(parts) && value == Join(parts, '/')
    ensures Validate(value) ==
              if value == "" || |value| > 1024 || ".." in parts || Seqs.Filter(parts, Naming()) == [] then None
              else Some(Join(Seqs.Filter(parts, Naming()), '/'))
  {
    JoinHasNo(parts, '\\');
    JoinHasNo(parts, '\0');
    SlashesOfPlain(value);
    StrippedIsClean(value);
    SplitJoin(parts, '/');
    CleanKeepsNaming(parts);
  }

  /** A backslash is as good as a slash. */
  lemma BackslashIsSlash(value: string, slashed: string)
    requires |slashed| == |value| && forall i :: 0 <= i < |value| ==> slashed[i] == if value[i] == '\\' then '/' else value[i]
    ensures Validate(value) == Validate(slashed)
  {
    assert Slashes(value) == slashed;
    SlashesOfPlain(slashed);
    assert '\0' in value <==> '\0' in slashed by {
      if '\0' in value {
        var i :| 0 <= i < |value| && value[i] == '\0';
        assert slashed[i] == '\0';
      }
    }
  }

  lemma NulIsRefused(value: string)
    requires '\0' in value
    ensures Validate(value).None?
  {
  }

  /** Going down to a name and up again leads nowhere else. */
  lemma UpUndoesDown(dir: seq<string>, name: string)
    requires IsProper(name)
    ensures Walk(dir, [name, ".."]) == dir && Walk([], [".."]) == []
  {
    assert [name, ".."][1..] == [".."] && [".."][1..] == [];
    assert (dir + [name])[..|dir|] == dir;
  }

  /** A text that begins with a slash leads to one place from everywhere. */
  lemma AbsoluteLeadsAnywhere(from: seq<string>, other: seq<string>, rest: string)
    ensures Resolve(from, ['/'] + rest) == Resolve(other, ['/'] + rest)
  {
  }
}
