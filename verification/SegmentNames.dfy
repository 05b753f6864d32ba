/** Segment file names: 20-digit base offsets, and the extension that tells them from other files. */
module SegmentNames {
  import opened Common
  import opened Bytes
  import opened Ordering
  import opened Frames
  import opened Recovery

  const NAME_WIDTH: nat := 20
  const ZERO: byte := 48

  /** ".log" */
  const EXTENSION: Text := [46, 108, 111, 103]

  predicate IsDigit(c: byte) {
    ZERO <= c <= ZERO + 9
  }

  /** The last `width` decimal digits of `n`, zero-padded. */
  function Digits(n: nat, width: nat): (s: Text)
    ensures |s| == width && forall c :: c in s ==> IsDigit(c)
  {
    if width == 0 then []
    else Digits(n / 10, width - 1) + [ZERO + (n % 10) as byte]
  }

  function Value(s: Text): nat
    requires forall c :: c in s ==> IsDigit(c)
  {
    if s == [] then 0
    else
      assert s[|s| - 1] in s && IsDigit(s[|s| - 1]);
      10 * Value(s[..|s| - 1]) + (s[|s| - 1] as int - 48)
  }

  lemma {:induction false} ValueOfDigits(n: nat, width: nat)
    requires n < Power10(width)
    ensures Value(Digits(n, width)) == n
  {
    if width == 0 {
    } else {
      ValueOfDigits(n / 10, width - 1);
      assert Digits(n, width)[..width - 1] == Digits(n / 10, width - 1);
    }
  }

  lemma {:induction false} DigitsOfValue(s: Text)
    requires forall c :: c in s ==> IsDigit(c)
    ensures Digits(Value(s), |s|) == s
  {
    if s == [] {
    } else {
      assert s[|s| - 1] in s;
      DigitsOfValue(s[..|s| - 1]);
      assert s == s[..|s| - 1] + [s[|s| - 1]];
    }
  }

  /** The stem of a segment file's name. */
  function Name(base: nat): Text {
    Digits(base, NAME_WIDTH)
  }

  /** `segment_path`, without the directory. */
  function FileName(base: nat): Text {
    Name(base) + EXTENSION
  }

  /** The name has the segment extension; a leading dot alone starts none. */
  predicate IsSegmentName(name: Text) {
    |name| > |EXTENSION| && name[|name| - |EXTENSION|..] == EXTENSION
  }

  function Stem(name: Text): Text
    requires IsSegmentName(name)
  {
    name[..|name| - |EXTENSION|]
  }

  /** The directory's segment files; all others are passed over. */
  function SegmentsOf(directory: map<Text, seq<byte>>): map<Text, seq<byte>> {
    map name | name in directory && IsSegmentName(name) :: directory[name]
  }

  /** `parse_segment_base_offset` */
  function ParseBase(stem: Text): Result<nat, StorageError> {
    if |stem| != NAME_WIDTH || exists i :: 0 <= i < |stem| && !IsDigit(stem[i]) then Err(InvalidFormat)
    else
      assert forall c :: c in stem ==> IsDigit(c);
      if Value(stem) > U64_MAX then Err(InvalidFormat) else Ok(Value(stem))
  }

  /** Names and 64-bit offsets correspond one to one: a name parses to an offset exactly when it is the
      name of that offset. */
  lemma NameOf(stem: Text, base: nat)
    ensures ParseBase(stem) == Ok(base) <==> base <= U64_MAX && stem == Name(base)
    ensures base <= U64_MAX ==>
      |Name(base)| == 20 && (forall c :: c in Name(base) ==> 48 <= c <= 57) && Value(Name(base)) == base
    ensures FileName(base) == Name(base) + [46, 108, 111, 103]
  {
    DecimalWidths();
    if base <= U64_MAX { ValueOfDigits(base, NAME_WIDTH); }
    if ParseBase(stem).Ok? {
      assert forall c :: c in stem ==> IsDigit(c);
      DigitsOfValue(stem);
    } else if base <= U64_MAX && stem == Name(base) {
      forall i | 0 <= i < |stem| ensures IsDigit(stem[i]) { assert stem[i] in stem; }
    }
  }

  /** So a file with the segment extension is either the file of one offset or an error. */
  lemma FileNameOf(name: Text, base: nat)
    requires IsSegmentName(name)
    ensures ParseBase(Stem(name)) == Ok(base) <==> base <= U64_MAX && name == FileName(base)
  {
    NameOf(Stem(name), base);
    assert name == Stem(name) + EXTENSION;
    if name == FileName(base) { assert Stem(name) == Name(base); }
  }

  predicate OffsetLeq(a: nat, b: nat) {
    a <= b
  }

  /** `bases` are the offsets that the file names `names` stand for. */
  ghost predicate Parsed(name: nat -> Text, names: set<Text>, bases: set<nat>) {
    && (forall base :: base in bases ==> name(base) in names)
    && (forall n :: n in names ==> exists base :: base in bases && name(base) == n)
  }

  /** Every segment file has to be named by an offset; in which order the names are read does not matter. */
  method ParseNames(names: set<Text>) returns (r: Result<set<nat>, StorageError>)
    requires forall name :: name in names ==> IsSegmentName(name)
    ensures r.Ok? ==> Parsed(FileName, names, r.value) && forall name :: name in names ==> ParseBase(Stem(name)).Ok?
    ensures r.Err? ==> r.error == InvalidFormat && exists name :: name in names && ParseBase(Stem(name)).Err?
  {
    var rest, bases := names, {};
    while rest != {}
      invariant rest <= names && Parsed(FileName, names - rest, bases)
      invariant forall name :: name in names - rest ==> ParseBase(Stem(name)).Ok?
      decreases rest
    {
      var name :| name in rest;
      match ParseBase(Stem(name)) {
        case Err(e) => return Err(e);
        case Ok(base) =>
          FileNameOf(name, base);
          ParsedOneMore(FileName, names - rest, bases, base);
          assert names - rest + {name} == names - (rest - {name});
          bases := bases + {base};
      }
      rest := rest - {name};
    }
    assert names - {} == names;
    r := Ok(bases);
  }

  lemma ParsedOneMore(name: nat -> Text, stems: set<Text>, bases: set<nat>, base: nat)
    requires Parsed(name, stems, bases)
    ensures Parsed(name, stems + {name(base)}, bases + {base})
  {
    forall stem | stem in stems + {name(base)} ensures exists b :: b in bases + {base} && name(b) == stem {
      if stem in stems {
        var b :| b in bases && name(b) == stem;
        assert b in bases + {base};
      } else {
        assert base in bases + {base};
      }
    }
  }

  /** The files of a directory by ascending base offset, each under its own name. */
  ghost predicate Lists(name: nat -> Text, directory: map<Text, seq<byte>>, files: seq<SegmentFile>) {
    && (forall i, j :: 0 <= i < j < |files| ==> files[i].base < files[j].base)
    && (forall i :: 0 <= i < |files| ==>
          name(files[i].base) in directory && directory[name(files[i].base)] == files[i].bytes)
    && (forall stem :: stem in directory ==> exists i :: 0 <= i < |files| && name(files[i].base) == stem)
  }

  method SortOffsets(bases: set<nat>) returns (order: seq<nat>)
    ensures forall i, j :: 0 <= i < j < |order| ==> order[i] < order[j]
    ensures forall base :: base in order <==> base in bases
  {
    order := Traverse(OffsetLeq, bases);
    forall base ensures base in order <==> base in bases { assert base in order <==> base in Elements(order); }
  }

  /** `sort_by_key` on the base offset. */
  method SortFiles(name: nat -> Text, directory: map<Text, seq<byte>>, bases: set<nat>)
      returns (files: seq<SegmentFile>)
    requires Parsed(name, directory.Keys, bases)
    ensures Lists(name, directory, files)
  {
    var order := SortOffsets(bases);
    forall i | 0 <= i < |order| ensures order[i] in bases { assert order[i] in order; }
    files := seq(|order|, i requires 0 <= i < |order| => SegmentFile(order[i], directory[name(order[i])]));
    forall stem | stem in directory ensures exists i :: 0 <= i < |files| && name(files[i].base) == stem {
      var base :| base in bases && name(base) == stem;
      var i :| 0 <= i < |order| && order[i] == base;
      assert files[i].base == base;
    }
  }

  /** `discover_segment_files`: the segment files among the files of a directory, in base-offset order; one
      whose name is no 20-digit offset is an error. */
  method DiscoverSegmentFiles(directory: map<Text, seq<byte>>) returns (r: Result<seq<SegmentFile>, StorageError>)
    ensures r.Err? <==> exists name :: name in directory && IsSegmentName(name) && ParseBase(Stem(name)).Err?
    ensures r.Err? ==> r.error == InvalidFormat
    ensures r.Ok? ==> Lists(FileName, SegmentsOf(directory), r.value)
  {
    var segments := SegmentsOf(directory);
    var parsed := ParseNames(segments.Keys);
    if parsed.Err? {
      return Err(parsed.error);
    }
    var files := SortFiles(FileName, segments, parsed.value);
    r := Ok(files);
  }
}
