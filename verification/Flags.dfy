/** List options and the mask letter of the command line (internal/options/options.go). */
module Flags {

  /** strings.Split at one character: never empty. */
  function Split(s: string, sep: char): (parts: seq<string>)
    ensures parts != []
    ensures forall i :: 0 <= i < |parts| ==> sep !in parts[i]
  {
    if s == "" then [""]
    else
      var rest := Split(s[1..], sep);
      if s[0] == sep then [""] + rest else [[s[0]] + rest[0]] + rest[1..]
  }

  function Join(parts: seq<string>, sep: char): string {
    if parts == [] then "" else if |parts| == 1 then parts[0] else parts[0] + [sep] + Join(parts[1..], sep)
  }

  /** The splits of all arguments, one after the other. */
  function SplitAll(args: seq<string>): seq<string> {
    if args == [] then [] else Split(args[0], ',') + SplitAll(args[1..])
  }

  lemma {:induction false} SplitConcat(a: string, b: string, sep: char)
    ensures Split(a + [sep] + b, sep) == Split(a, sep) + Split(b, sep)
  {
    if a == "" {
      assert (a + [sep] + b)[1..] == b;
    } else {
      assert (a + [sep] + b)[1..] == a[1..] + [sep] + b;
      SplitConcat(a[1..], b, sep);
    }
  }

  /** Splitting a joined list gives the splits of its parts. */
  lemma {:induction false} SplitOfJoin(args: seq<string>)
    requires args != []
    ensures Split(Join(args, ','), ',') == SplitAll(args)
  {
    if |args| == 1 {
      assert SplitAll(args[1..]) == [];
    } else {
      SplitConcat(args[0], Join(args[1..], ','), ',');
      SplitOfJoin(args[1..]);
    }
  }

  /** Joining what was split gives the text back. */
  lemma {:induction false} JoinOfSplit(s: string, sep: char)
    ensures Join(Split(s, sep), sep) == s
  {
    if s != "" {
      JoinOfSplit(s[1..], sep);
      var rest := Split(s[1..], sep);
      if s[0] == sep {
        assert ([""] + rest)[1..] == rest;
      } else {
        var parts := [[s[0]] + rest[0]] + rest[1..];
        assert parts[1..] == rest[1..];
        if |rest| > 1 {
          assert [s[0]] + rest[0] + [sep] + Join(rest[1..], sep) == [s[0]] + (rest[0] + [sep] + Join(rest[1..], sep));
        }
      }
    }
  }

  class SliceFlag {
    var values: seq<string>
    var set': bool

    constructor ()
      ensures values == [] && !set'
    {
      values, set' := [], false;
    }

    /** AddStringS: an empty default leaves the flag as it is. */
    method Default(value: string)
      modifies this
      ensures if value == "" then values == old(values) && set' == old(set') else values == Split(value, ',') && !set'
    {
      if value != "" {
        values, set' := Split(value, ','), false;
      }
    }

    /** The first explicit value bins the default; later ones are appended. */
    method Set(value: string)
      modifies this
      ensures set' && values == (if old(set') then old(values) else []) + Split(value, ',')
    {
      if !set' {
        set' := true;
        values := [];
      }
      values := values + Split(value, ',');
    }
  }

  /** Repeating an option is the same as giving it once with the arguments joined by commas, whatever the default. */
  method Repeated(args: seq<string>, default: string) returns (repeated: seq<string>, once: seq<string>)
    requires args != []
    ensures repeated == once == SplitAll(args)
  {
    var flag := new SliceFlag();
    flag.Default(default);
    for i := 0 to |args|
      invariant i > 0 ==> flag.set' && flag.values == SplitAll(args[..i])
      invariant i == 0 ==> !flag.set'
    {
      flag.Set(args[i]);
      SplitAllSnoc(args[..i], args[i]);
      assert args[..i + 1] == args[..i] + [args[i]];
    }
    assert args[..|args|] == args;
    repeated := flag.values;
    var other := new SliceFlag();
    other.Default(default);
    other.Set(Join(args, ','));
    SplitOfJoin(args);
    once := other.values;
  }

  lemma {:induction false} SplitAllSnoc(args: seq<string>, a: string)
    ensures SplitAll(args + [a]) == SplitAll(args) + Split(a, ',')
  {
    if args == [] {
      assert [a][1..] == [];
    } else {
      assert (args + [a])[1..] == args[1..] + [a];
      SplitAllSnoc(args[1..], a);
    }
  }

  // ----- DecodeSafeCIDR -----

  /** i is the last 'm' of s. */
  predicate IsLastM(s: string, i: int) {
    0 <= i < |s| && s[i] == 'm' && forall j :: i < j < |s| ==> s[j] != 'm'
  }

  /** A text with a slash, or without an 'm', stays as it is; otherwise its last 'm' becomes a slash. */
  ghost predicate IsDecoding(s: string, r: string) {
    if '/' in s || 'm' !in s then r == s
    else exists i :: IsLastM(s, i) && r == s[i := '/']
  }

  method DecodeSafeCIDR(cidr: string) returns (r: string)
    ensures IsDecoding(cidr, r)
  {
    if '/' in cidr {
      return cidr;
    }
    var runes := new char[|cidr|](i requires 0 <= i < |cidr| => cidr[i]);
    var i := |cidr| - 1;
    while i >= 0
      invariant -1 <= i < |cidr| && runes[..] == cidr
      invariant forall j :: i < j < |cidr| ==> cidr[j] != 'm'
    {
      if runes[i] == 'm' {
        assert IsLastM(cidr, i);
        runes[i] := '/';
        return runes[..];
      }
      i := i - 1;
    }
    return cidr;
  }

  /** Decoding determines its result, and decoding again changes nothing. */
  lemma DecodingIsIdempotent(s: string, r: string, r': string)
    requires IsDecoding(s, r)
    ensures IsDecoding(s, r') ==> r' == r
    ensures IsDecoding(r, r') <==> r' == r
  {
    if '/' !in s && 'm' in s {
      var i :| IsLastM(s, i) && r == s[i := '/'];
      assert r[i] == '/';
      if IsDecoding(s, r') {
        var k :| IsLastM(s, k) && r' == s[k := '/'];
        assert k == i;
      }
    }
  }

  /** Writing 'm' for the only slash is undone exactly when no 'm' follows it. */
  lemma DecodingUndoesMaskLetter(s: string, i: nat)
    requires i < |s| && s[i] == '/' && forall j :: 0 <= j < |s| && j != i ==> s[j] != '/'
    ensures IsDecoding(s[i := 'm'], s) <==> forall j :: i < j < |s| ==> s[j] != 'm'
  {
    var t := s[i := 'm'];
    assert t[i] == 'm' && '/' !in t;
    if forall j :: i < j < |s| ==> s[j] != 'm' {
      assert IsLastM(t, i) && s == t[i := '/'];
    }
    if IsDecoding(t, s) {
      var k :| IsLastM(t, k) && s == t[k := '/'];
      assert s[k] == '/';
    }
  }
}
