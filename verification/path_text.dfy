/** Slash-separated path text and the component lists it stands for. */
module PathText {

  /** A component that can appear in a canonical path. */
  predicate IsName(name: string) {
    name != "" && name != "." && name != ".." && '/' !in name
  }

  predicate AllNames(names: seq<string>) {
    forall i :: 0 <= i < |names| ==> IsName(names[i])
  }

  /** `/a/b/c` for the components a, b, c; nothing for no components. */
  function Slashed(names: seq<string>): (text: string) {
    if names == [] then "" else "/" + names[0] + Slashed(names[1..])
  }

  /** The canonical absolute path of a component list; the root prints as `/`. */
  function Render(names: seq<string>): (text: string) {
    if names == [] then "/" else Slashed(names)
  }

  lemma {:induction false} SlashedSnoc(names: seq<string>, name: string)
    ensures Slashed(names + [name]) == Slashed(names) + "/" + name
  {
    if names == [] {
      assert [] + [name] == [name] && [name][1..] == [];
    } else {
      assert (names + [name])[1..] == names[1..] + [name];
      SlashedSnoc(names[1..], name);
    }
  }

  /** The canonical text: the root is a slash, and one more component is a slash and that component. */
  lemma RenderOneMore(names: seq<string>, name: string)
    ensures Render([]) == "/"
    ensures Render(names + [name]) == (if names == [] then "" else Render(names)) + "/" + name
  {
    SlashedSnoc(names, name);
  }

  /** The text up to the first slash. */
  function FirstPart(text: string): (part: string)
    ensures '/' !in part && part <= text
    ensures |part| < |text| ==> text[|part|] == '/'
  {
    if text == "" || text[0] == '/' then "" else [text[0]] + FirstPart(text[1..])
  }

  /** The pieces between slashes, empty pieces included. */
  function Split(text: string): (parts: seq<string>)
    ensures forall i :: 0 <= i < |parts| ==> '/' !in parts[i]
    decreases |text|
  {
    var part := FirstPart(text);
    if |part| == |text| then [part] else [part] + Split(text[|part| + 1..])
  }

  /** Walks the pieces from an absolute base: `.` and empty pieces stay, `..` climbs and stops at the root. */
  function Resolve(base: seq<string>, parts: seq<string>): (names: seq<string>)
    requires AllNames(base)
    requires forall i :: 0 <= i < |parts| ==> '/' !in parts[i]
    ensures AllNames(names)
    decreases |parts|
  {
    if parts == [] then base
    else if parts[0] == "" || parts[0] == "." then Resolve(base, parts[1..])
    else if parts[0] == ".." then Resolve(if base == [] then base else base[..|base| - 1], parts[1..])
    else Resolve(base + [parts[0]], parts[1..])
  }

  lemma FirstPartOfName(name: string, rest: string)
    requires '/' !in name
    requires rest == "" || rest[0] == '/'
    ensures FirstPart(name + rest) == name
  {
    if name == "" {
      assert name + rest == rest;
    } else {
      assert (name + rest)[1..] == name[1..] + rest;
      FirstPartOfName(name[1..], rest);
    }
  }

  lemma SplitAtSlash(name: string, rest: string)
    requires '/' !in name
    ensures Split(name + "/" + rest) == [name] + Split(rest)
  {
    var text := name + "/" + rest;
    FirstPartOfName(name, "/" + rest);
    assert text == name + ("/" + rest);
    assert text[|name| + 1..] == rest;
  }

  lemma {:induction false} ResolveNames(base: seq<string>, names: seq<string>)
    requires AllNames(base) && AllNames(names)
    ensures Resolve(base, names) == base + names
    decreases |names|
  {
    if names == [] {
      assert base + names == base;
    } else {
      assert IsName(names[0]);
      ResolveNames(base + [names[0]], names[1..]);
      assert base + [names[0]] + names[1..] == base + names;
    }
  }

  lemma SplitName(name: string)
    requires '/' !in name
    ensures Split(name) == [name]
  {
    FirstPartOfName(name, "");
    assert name + "" == name;
  }

  lemma {:induction false} SplitOfSlashed(name: string, names: seq<string>)
    requires '/' !in name && AllNames(names)
    ensures Split(name + Slashed(names)) == [name] + names
    decreases |names|
  {
    hide Split, FirstPart;
    if names == [] {
      SplitName(name);
      assert name + "" == name;
    } else {
      assert IsName(names[0]);
      var rest := names[0] + Slashed(names[1..]);
      assert name + Slashed(names) == name + "/" + rest;
      SplitAtSlash(name, rest);
      SplitOfSlashed(names[0], names[1..]);
    }
  }

  /** Printing a component list and walking the text from the root gives the list back. */
  lemma ResolveOfRender(names: seq<string>)
    requires AllNames(names)
    ensures Resolve([], Split(Render(names))) == names
  {
    if names == [] {
      assert Split("/"[1..]) == [""];
      var parts := Split("/");
      assert parts == [""] + [""];
      assert parts[1..] == [""] && parts[1..][1..] == [];
    } else {
      SplitOfSlashed("", names);
      assert "" + Slashed(names) == Slashed(names);
      var parts := Split(Slashed(names));
      assert parts[0] == "" && parts[1..] == names;
      ResolveNames([], names);
      assert [] + names == names;
    }
  }

  /** A name followed by a slash is read off unambiguously. */
  lemma NameBoundary(a: string, x: string, b: string, y: string)
    requires '/' !in a && '/' !in b
    requires x != "" && x[0] == '/' && y != "" && y[0] == '/'
    ensures a + x <= b + y <==> a == b && x <= y
  {
    if a + x <= b + y {
      assert (a + x)[|a|] == '/' && (b + y)[|b|] == '/';
      assert forall i :: 0 <= i < |b| ==> (b + y)[i] in b;
      assert forall i :: 0 <= i < |a| ==> (a + x)[i] in a;
      assert a == (a + x)[..|a|] == (b + y)[..|a|] == b;
      assert x == (a + x)[|a|..] && y == (b + y)[|a|..];
    }
  }

  /** Text-prefix at a slash boundary is exactly component-prefix. */
  lemma {:induction false} SlashedPrefix(a: seq<string>, b: seq<string>)
    requires AllNames(a) && AllNames(b)
    ensures Slashed(a) + "/" <= Slashed(b) + "/" <==> a <= b
    decreases |a|
  {
    if a == [] {
      assert (Slashed(b) + "/")[0] == '/';
    } else if b == [] {
      assert |Slashed(a) + "/"| > 1;
    } else {
      var x := Slashed(a[1..]) + "/";
      var y := Slashed(b[1..]) + "/";
      assert Slashed(a) + "/" == "/" + (a[0] + x);
      assert Slashed(b) + "/" == "/" + (b[0] + y);
      AfterSlash(a[0] + x, b[0] + y);
      NameBoundary(a[0], x, b[0], y);
      SlashedPrefix(a[1..], b[1..]);
      HeadAndTail(a, b);
    }
  }

  lemma AfterSlash(x: string, y: string)
    ensures "/" + x <= "/" + y <==> x <= y
  {
    assert ("/" + x)[1..] == x && ("/" + y)[1..] == y;
  }

  lemma HeadAndTail(a: seq<string>, b: seq<string>)
    requires a != [] && b != []
    ensures a[0] == b[0] && a[1..] <= b[1..] <==> a <= b
  {
    assert a == [a[0]] + a[1..] && b == [b[0]] + b[1..];
  }

  lemma {:induction false} SlashedLength(a: seq<string>, b: seq<string>)
    requires a <= b && a != b && AllNames(b)
    ensures |Slashed(a)| + 2 <= |Slashed(b)|
    decreases |b|
  {
    if a != [] {
      SlashedLength(a[1..], b[1..]);
    }
  }

  /** A proper ancestor prints strictly shorter. */
  lemma RenderLength(a: seq<string>, b: seq<string>)
    requires a <= b && a != b && AllNames(b)
    ensures |Render(a)| < |Render(b)|
  {
    SlashedLength(a, b);
  }
}
