/** _collect_derty: sorting the lines of `svn status --no-ignore` into entries to delete and entries to revert. */
module Status {
  import opened Text

  /** `row.rstrip().split(' ')[-1]`: the name an entry line reports. */
  function EntryName(line: string): (name: string)
    ensures IsLastField(name, RStrip(line), ' ')
  {
    LastField(RStrip(line), ' ')
  }

  /** The names of the lines that start with `code`, in the order of the lines. */
  function Picked(lines: seq<string>, code: char): seq<string>
    decreases |lines|
  {
    if lines == [] then []
    else
      var line := lines[|lines| - 1];
      var earlier := Picked(lines[..|lines| - 1], code);
      if StartsWith(line, code) then earlier + [EntryName(line)] else earlier
  }

  /** _collect_derty's loop over the status lines: untracked (`?`) entries are to be removed, modified (`M`)
      entries to be rolled back, every other line is dropped. */
  method CollectDirty(lines: seq<string>) returns (toRemove: seq<string>, toRollback: seq<string>)
    ensures toRemove == Picked(lines, '?')
    ensures toRollback == Picked(lines, 'M')
  {
    toRollback := [];
    toRemove := [];
    for i := 0 to |lines|
      invariant toRemove == Picked(lines[..i], '?')
      invariant toRollback == Picked(lines[..i], 'M')
    {
      assert lines[..i + 1][..i] == lines[..i];
      var row := lines[i];
      if StartsWith(row, '?') {
        toRemove := toRemove + [EntryName(row)];
      } else if StartsWith(row, 'M') {
        toRollback := toRollback + [EntryName(row)];
      }
    }
    assert lines[..|lines|] == lines;
  }

  /** Classification goes line by line: the names of a longer listing extend those of its beginning, in order. */
  lemma {:induction false} PickedAppend(a: seq<string>, b: seq<string>, code: char)
    ensures Picked(a + b, code) == Picked(a, code) + Picked(b, code)
    decreases |b|
  {
    if b == [] {
      assert a + b == a;
    } else {
      var init := b[..|b| - 1];
      assert (a + b)[..|a + b| - 1] == a + init;
      PickedAppend(a, init, code);
    }
  }

  /** The entry of every line starting with `code` is picked. */
  lemma {:induction false} PickedHas(lines: seq<string>, code: char, i: nat)
    requires i < |lines| && StartsWith(lines[i], code)
    ensures EntryName(lines[i]) in Picked(lines, code)
    decreases |lines|
  {
    var init := lines[..|lines| - 1];
    if i < |init| {
      assert lines[i] == init[i];
      PickedHas(init, code, i);
    }
  }

  /** Every picked name comes from a line starting with `code`. */
  lemma {:induction false} PickedFrom(lines: seq<string>, code: char, name: string) returns (i: nat)
    requires name in Picked(lines, code)
    ensures i < |lines| && StartsWith(lines[i], code) && EntryName(lines[i]) == name
    decreases |lines|
  {
    var init := lines[..|lines| - 1];
    var last := lines[|lines| - 1];
    assert Picked(lines, code) == if StartsWith(last, code) then Picked(init, code) + [EntryName(last)] else Picked(init, code);
    if name in Picked(init, code) {
      i := PickedFrom(init, code, name);
      assert lines[i] == init[i];
    } else {
      i := |lines| - 1;
    }
  }

  /** A name is picked exactly when some line starting with `code` reports it. */
  lemma PickedMembers(lines: seq<string>, code: char, name: string)
    ensures name in Picked(lines, code) <==>
              exists i :: 0 <= i < |lines| && StartsWith(lines[i], code) && EntryName(lines[i]) == name
  {
    if name in Picked(lines, code) {
      var i := PickedFrom(lines, code, name);
    }
    forall i | 0 <= i < |lines| && StartsWith(lines[i], code)
      ensures EntryName(lines[i]) in Picked(lines, code)
    {
      PickedHas(lines, code, i);
    }
  }

  /** A listing with an untracked file, a modified file and an added file: the added file is left alone. */
  lemma ClassifyExample()
    ensures Picked(["? foo.tmp", "M src/bar.py", "A new.py"], '?') == ["foo.tmp"]
    ensures Picked(["? foo.tmp", "M src/bar.py", "A new.py"], 'M') == ["src/bar.py"]
  {
    var lines := ["? foo.tmp", "M src/bar.py", "A new.py"];
    ExampleName("? foo.tmp", 1);
    ExampleName("M src/bar.py", 1);
    assert lines[..2][..1] == lines[..1] && lines[..1][..0] == [] && lines[..3] == lines;
    assert lines[..2] == ["? foo.tmp", "M src/bar.py"];
    assert "? foo.tmp"[2..] == "foo.tmp" && "M src/bar.py"[2..] == "src/bar.py";
    assert Picked(lines[..1], '?') == ["foo.tmp"] && Picked(lines[..1], 'M') == [];
    assert Picked(lines[..2], '?') == ["foo.tmp"] && Picked(lines[..2], 'M') == ["src/bar.py"];
    assert !StartsWith(lines[2], '?') && !StartsWith(lines[2], 'M');
  }

  /** The name on a line whose last space is at `k` and which ends in a non-space is what follows `k`. */
  lemma ExampleName(line: string, k: nat)
    requires k < |line| - 1 && line[k] == ' ' && !IsSpace(line[|line| - 1])
    requires forall j :: k < j < |line| ==> line[j] != ' '
    ensures EntryName(line) == line[k + 1..]
  {
    LastFieldUnique(line[k + 1..], line, ' ');
  }
}
