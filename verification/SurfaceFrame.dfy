/** The byte stream that is hashed for a surface's identity, and the decoder that shows nothing is lost in it. */
module SurfaceFrame {
  import opened Wrappers
  import opened Texts

  /** Strings hold bytes: each character is one of 256. */
  predicate IsBytes(text: string) { forall i :: 0 <= i < |text| ==> text[i] as int < 256 }

  const HEADER: string := "curator-content-v2\0"

  const WIDTH: nat := 8

  function Power256(n: nat): nat { if n == 0 then 1 else 256 * Power256(n - 1) }

  /** The low `width` bytes of a number, most significant first. */
  function BigEndian(n: nat, width: nat): (bytes: string)
    ensures |bytes| == width && IsBytes(bytes)
  {
    if width == 0 then "" else BigEndian(n / 256, width - 1) + [(n % 256) as char]
  }

  function Framed(text: string): string { BigEndian(|text|, WIDTH) + text }

  function Entry(path: string, payload: string): string { "F" + Framed(path) + Framed(payload) }

  /** Paths in ascending order. */
  ghost function Sorted(paths: set<string>): (order: seq<string>)
    ensures forall p :: p in order <==> p in paths
    decreases |paths|
  {
    if paths == {} then [] else [Least(paths)] + Sorted(paths - {Least(paths)})
  }

  /** The order is ascending, so one map has one stream. */
  lemma {:induction false} SortedAscends(paths: set<string>)
    ensures forall i, j :: 0 <= i < j < |Sorted(paths)| ==> Below(Sorted(paths)[i], Sorted(paths)[j])
    decreases |paths|
  {
    if paths != {} {
      var low := Least(paths);
      SortedAscends(paths - {low});
      forall i, j | 0 <= i < j < |Sorted(paths)| ensures Below(Sorted(paths)[i], Sorted(paths)[j]) {
        assert Sorted(paths)[j] == Sorted(paths - {low})[j - 1];
        assert Sorted(paths - {low})[j - 1] in Sorted(paths - {low});
        if i > 0 { assert Sorted(paths)[i] == Sorted(paths - {low})[i - 1]; }
      }
    }
  }

  function Entries(files: map<string, string>, order: seq<string>): string
    requires forall p :: p in order ==> p in files
  {
    if order == [] then "" else Entry(order[0], files[order[0]]) + Entries(files, order[1..])
  }

  /** The stream: the header, then every file in path order. */
  ghost function Stream(files: map<string, string>): string {
    HEADER + Entries(files, Sorted(files.Keys))
  }

  method WriteFramed(stream: string, text: string) returns (longer: string)
    ensures longer == stream + Framed(text)
  {
    longer := stream + BigEndian(|text|, WIDTH);
    longer := longer + text;
  }

  method WriteEntry(stream: string, path: string, payload: string) returns (longer: string)
    ensures longer == stream + Entry(path, payload)
  {
    hide Framed;
    longer := stream + "F";
    longer := WriteFramed(longer, path);
    longer := WriteFramed(longer, payload);
  }

  lemma EntriesStep(files: map<string, string>, rest: set<string>, stream: string)
    requires rest <= files.Keys && rest != {}
    ensures var path := Least(rest);
      stream + Entries(files, Sorted(rest)) == stream + Entry(path, files[path]) + Entries(files, Sorted(rest - {path}))
  {
    hide Entry;
    var path := Least(rest);
    assert Sorted(rest)[1..] == Sorted(rest - {path});
  }

  /** environmentSurfaceHash up to the digest: the stream is written entry by entry. */
  method WriteStream(files: map<string, string>) returns (stream: string)
    ensures stream == Stream(files)
  {
    hide Entry, Entries;
    stream := HEADER;
    var rest := files.Keys;
    while rest != {}
      invariant rest <= files.Keys && Stream(files) == stream + Entries(files, Sorted(rest))
      decreases |rest|
    {
      EntriesStep(files, rest, stream);
      var path := SmallestOf(rest);
      rest := rest - {path};
      stream := WriteEntry(stream, path, files[path]);
    }
    NoEntries(files);
  }

  lemma NoEntries(files: map<string, string>)
    ensures Entries(files, Sorted({})) == ""
  {}

  // ---------------------------------------------------------------- decoding

  function Number(bytes: string): nat {
    if bytes == "" then 0 else 256 * Number(bytes[..|bytes| - 1]) + bytes[|bytes| - 1] as int
  }

  /** Reads one length-prefixed text from the front; the second part is what follows it. */
  function ReadFramed(stream: string): Option<(string, string)> {
    if |stream| < WIDTH then None
    else
      var n := Number(stream[..WIDTH]);
      if |stream| < WIDTH + n then None else Some((stream[WIDTH..WIDTH + n], stream[WIDTH + n..]))
  }

  function ReadEntries(stream: string): (files: Option<map<string, string>>)
    decreases |stream|
  {
    if stream == "" then Some(map[])
    else if stream[0] != 'F' then None
    else match ReadFramed(stream[1..])
      case None => None
      case Some((path, afterPath)) => match ReadFramed(afterPath)
        case None => None
        case Some((payload, rest)) => match ReadEntries(rest)
          case None => None
          case Some(others) => Some(others[path := payload])
  }

  function ReadStream(stream: string): Option<map<string, string>> {
    if HEADER <= stream then ReadEntries(stream[|HEADER|..]) else None
  }

  lemma {:induction false} NumberOfBigEndian(n: nat, width: nat)
    requires n < Power256(width)
    ensures Number(BigEndian(n, width)) == n
  {
    if width > 0 {
      NumberOfBigEndian(n / 256, width - 1);
      var bytes := BigEndian(n, width);
      assert bytes[..width - 1] == BigEndian(n / 256, width - 1);
    }
  }

  /** Lengths fit their eight bytes. */
  predicate FitsLengths(files: map<string, string>) {
    forall p :: p in files ==> |p| < Power256(WIDTH) && |files[p]| < Power256(WIDTH)
  }

  lemma FramedReads(text: string, rest: string)
    requires |text| < Power256(WIDTH)
    ensures ReadFramed(Framed(text) + rest) == Some((text, rest))
  {
    NumberOfBigEndian(|text|, WIDTH);
    var stream := Framed(text) + rest;
    assert stream[..WIDTH] == BigEndian(|text|, WIDTH);
    assert stream[WIDTH..WIDTH + |text|] == text && stream[WIDTH + |text|..] == rest;
  }

  lemma EntryReads(path: string, payload: string, rest: string)
    requires |path| < Power256(WIDTH) && |payload| < Power256(WIDTH)
    ensures var stream := Entry(path, payload) + rest;
      ReadEntries(stream)
        == match ReadEntries(rest) case None => None case Some(others) => Some(others[path := payload])
  {
    var stream := Entry(path, payload) + rest;
    FramedReads(path, Framed(payload) + rest);
    FramedReads(payload, rest);
    assert stream[1..] == Framed(path) + (Framed(payload) + rest);
  }

  function Restricted(files: map<string, string>, order: seq<string>): map<string, string> {
    map p | p in files && p in order :: files[p]
  }

  lemma {:induction false} EntriesRead(files: map<string, string>, order: seq<string>)
    requires FitsLengths(files) && forall p :: p in order ==> p in files
    ensures ReadEntries(Entries(files, order)) == Some(Restricted(files, order))
  {
    if order == [] {
      assert Restricted(files, order) == map[];
    } else {
      EntriesRead(files, order[1..]);
      EntryReads(order[0], files[order[0]], Entries(files, order[1..]));
      assert Restricted(files, order) == Restricted(files, order[1..])[order[0] := files[order[0]]];
    }
  }

  /** The decoder recovers every file map from its stream. */
  lemma StreamReads(files: map<string, string>)
    requires FitsLengths(files)
    ensures ReadStream(Stream(files)) == Some(files)
  {
    var order := Sorted(files.Keys);
    EntriesRead(files, order);
    assert Stream(files)[|HEADER|..] == Entries(files, order);
    assert Restricted(files, order) == files;
  }

  /** So equal streams come from equal file maps. */
  lemma StreamInjective(a: map<string, string>, b: map<string, string>)
    requires FitsLengths(a) && FitsLengths(b) && Stream(a) == Stream(b)
    ensures a == b
  {
    StreamReads(a);
    StreamReads(b);
  }

  lemma {:induction false} EntriesAreBytes(files: map<string, string>, order: seq<string>)
    requires (forall p :: p in order ==> p in files) && forall p :: p in files ==> IsBytes(p) && IsBytes(files[p])
    ensures IsBytes(Entries(files, order))
  {
    if order != [] { EntriesAreBytes(files, order[1..]); }
  }

  /** A map of byte strings is written as bytes. */
  lemma StreamIsBytes(files: map<string, string>)
    requires forall p :: p in files ==> IsBytes(p) && IsBytes(files[p])
    ensures IsBytes(Stream(files))
  {
    EntriesAreBytes(files, Sorted(files.Keys));
  }
}
