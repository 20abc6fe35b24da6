/** Names derived from the path of a protobuf file: its import path and its namespace. */
module ProtoPaths {
  import opened Text

  const PROTO_DIR := "./proto/"
  const PROTO_SUFFIX := ".proto"
  const INTERFACES_DIR := "./proto-interfaces/"

  function DropPrefix(path: string): string {
    if PROTO_DIR <= path then path[|PROTO_DIR|..] else path
  }

  function DropSuffix(path: string): string {
    var n := |path| - |PROTO_SUFFIX|;
    if n >= 0 && path[n..] == PROTO_SUFFIX then path[..n] else path
  }

  function Strip(path: string): string {
    DropSuffix(DropPrefix(path))
  }

  function Replace(s: string, from: char, to: char): string {
    seq(|s|, i requires 0 <= i < |s| => if s[i] == from then to else s[i])
  }

  function ProcessProtoFilePath(path: string): string {
    INTERFACES_DIR + Replace(Strip(path), '.', '/')
  }

  /** A slash separates unless it follows a single backslash. */
  predicate Separates(s: string, i: nat)
    requires i < |s|
  {
    s[i] == '/' && ((i >= 2 && s[i - 1] == '\\' && s[i - 2] == '\\') || !(i >= 1 && s[i - 1] == '\\'))
  }

  /** The pieces of `s` from position `i` on. */
  function Pieces(s: string, i: nat): (parts: seq<string>)
    requires i <= |s|
    ensures |parts| > 0
    decreases |s| - i
  {
    if i == |s| then [""]
    else
      var parts := Pieces(s, i + 1);
      if Separates(s, i) then [""] + parts else [[s[i]] + parts[0]] + parts[1..]
  }

  function PathToNamespace(path: string): string {
    Join(Pieces(Strip(path), 0), '.')
  }

  /** `s` from position `i` on, with every separating slash turned into a dot. */
  function Dotted(s: string, i: nat): string
    requires i <= |s|
  {
    seq(|s| - i, k requires 0 <= k < |s| - i => if Separates(s, i + k) then '.' else s[i + k])
  }

  lemma {:induction false} JoinedPieces(s: string, i: nat)
    requires i <= |s|
    ensures Join(Pieces(s, i), '.') == Dotted(s, i)
    decreases |s| - i
  {
    if i < |s| {
      JoinedPieces(s, i + 1);
      var parts := Pieces(s, i + 1);
      if Separates(s, i) {
        assert ([""] + parts)[1..] == parts;
        assert "" + ['.'] + Dotted(s, i + 1) == Dotted(s, i);
      } else {
        var whole := [[s[i]] + parts[0]] + parts[1..];
        assert whole[1..] == parts[1..];
        assert [s[i]] + Dotted(s, i + 1) == Dotted(s, i);
      }
    }
  }

  /**
   * Naming agreement, for every path: the import path is the namespace with each dot turned into
   * a slash, below the interfaces directory.
   */
  lemma ImportPathFollowsNamespace(path: string)
    ensures ProcessProtoFilePath(path) == INTERFACES_DIR + Replace(PathToNamespace(path), '.', '/')
  {
    var s := Strip(path);
    JoinedPieces(s, 0);
    assert Replace(Dotted(s, 0), '.', '/') == Replace(s, '.', '/');
  }

  function ProtoFile(inner: string): string {
    PROTO_DIR + inner + PROTO_SUFFIX
  }

  lemma StripProtoFile(inner: string)
    ensures Strip(ProtoFile(inner)) == inner
  {
    var path := ProtoFile(inner);
    assert PROTO_DIR <= path && path[|PROTO_DIR|..] == inner + PROTO_SUFFIX;
    assert (inner + PROTO_SUFFIX)[|inner|..] == PROTO_SUFFIX;
  }

  lemma {:induction false} PiecesAreSegments(s: string, i: nat)
    requires i <= |s| && '\\' !in s
    ensures Pieces(s, i) == Split(s[i..], '/')
    decreases |s| - i
  {
    if i < |s| {
      PiecesAreSegments(s, i + 1);
      assert s[i..][1..] == s[i + 1..];
      assert i >= 1 ==> s[i - 1] in s;
    }
  }

  lemma {:induction false} SplitJoined(parts: seq<string>, sep: char)
    requires |parts| > 0 && forall p | p in parts :: sep !in p
    ensures Split(Join(parts, sep), sep) == parts
    decreases |parts|, |parts[0]|
  {
    var s := Join(parts, sep);
    if parts[0] != "" {
      var p := parts[0];
      var shorter := [p[1..]] + parts[1..];
      assert p in parts;
      assert shorter[1..] == parts[1..];
      assert s == [p[0]] + Join(shorter, sep);
      forall x | x in shorter ensures sep !in x {
        assert x != p[1..] ==> x in parts;
      }
      SplitJoined(shorter, sep);
      assert p == [p[0]] + p[1..];
      assert parts == [p] + parts[1..];
    } else if |parts| > 1 {
      assert s == [sep] + Join(parts[1..], sep);
      SplitJoined(parts[1..], sep);
      assert parts == [""] + parts[1..];
    } else {
      assert parts == [""];
    }
  }

  lemma {:induction false} SegmentsHaveNoDots(s: string, i: nat)
    requires i <= |s| && '.' !in s
    ensures forall p | p in Pieces(s, i) :: '.' !in p
    decreases |s| - i
  {
    if i < |s| {
      SegmentsHaveNoDots(s, i + 1);
    }
  }

  /** Below `./proto`, for files without dots and backslashes, the namespace lists the path segments. */
  lemma {:induction false} NamespaceSplitsIntoSegments(inner: string)
    requires '.' !in inner && '\\' !in inner
    ensures Split(PathToNamespace(ProtoFile(inner)), '.') == Split(inner, '/')
  {
    StripProtoFile(inner);
    SegmentsHaveNoDots(inner, 0);
    SplitJoined(Pieces(inner, 0), '.');
    PiecesAreSegments(inner, 0);
    assert inner[0..] == inner;
  }

  /** Different files below `./proto` get different namespaces as long as their paths have no dots. */
  lemma NamespaceIsInjective(a: string, b: string)
    requires '.' !in a && '.' !in b
    requires PathToNamespace(ProtoFile(a)) == PathToNamespace(ProtoFile(b))
    ensures a == b
  {
    StripProtoFile(a);
    StripProtoFile(b);
    ImportPathFollowsNamespace(ProtoFile(a));
    ImportPathFollowsNamespace(ProtoFile(b));
    var x, y := Replace(a, '.', '/'), Replace(b, '.', '/');
    assert x == (INTERFACES_DIR + x)[|INTERFACES_DIR|..] && y == (INTERFACES_DIR + y)[|INTERFACES_DIR|..];
    assert x == a && y == b;
  }

  /** What is stripped: a leading "./proto/" and then a trailing ".proto", each where there is one. */
  lemma StripMeaning(path: string)
    ensures var rest := if "./proto/" <= path then path[8..] else path;
            Strip(path) == if |rest| >= 6 && rest[|rest| - 6..] == ".proto" then rest[..|rest| - 6] else rest
  {
  }

  /**
   * The namespace character by character: a dot for every slash that does not follow a backslash
   * or follows two of them, everything else unchanged.
   */
  lemma NamespaceCharacters(path: string)
    ensures var s, n := Strip(path), PathToNamespace(path);
            && |n| == |s|
            && forall i | 0 <= i < |s| ::
                 n[i] ==
                 if s[i] == '/' && (i == 0 || s[i - 1] != '\\' || (i >= 2 && s[i - 2] == '\\')) then '.' else s[i]
  {
    JoinedPieces(Strip(path), 0);
  }

  /** The import path character by character: a slash for every dot, below "./proto-interfaces/". */
  lemma ImportCharacters(path: string)
    ensures var s, p := Strip(path), ProcessProtoFilePath(path);
            && |p| == 19 + |s| && p[..19] == "./proto-interfaces/"
            && forall i | 0 <= i < |s| :: p[19 + i] == if s[i] == '.' then '/' else s[i]
  {
  }
}
