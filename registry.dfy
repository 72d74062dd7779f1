/** Source units, their identities, the first-match lookup over the insertion-ordered
    registry, and the UTF-8 bytes a source's text is exposed as. */
module Registry {
  import opened Wrappers
  import opened Paths
  import opened Files

  /** A file identity: a virtual path inside an optional package, or the identity of a
      detached source that belongs to no file. */
  datatype FileId = Detached | FileId(package: Option<string>, vpath: Path)

  datatype Source = Source(id: FileId, text: string)

  /** `World::source`: the first registered source whose id equals `id`, `NotSource`
      when there is none. */
  function FindSource(sources: seq<Source>, id: FileId): (r: FileResult<Source>)
    ensures r.Ok? <==> exists i :: 0 <= i < |sources| && sources[i].id == id
    ensures r.Ok? ==> r.value.id == id
    ensures r.Ok? ==> exists i :: 0 <= i < |sources| && sources[i] == r.value
                                  && forall j :: 0 <= j < i ==> sources[j].id != id
    ensures r.Err? ==> r.error == NotSource
  {
    if sources == [] then Err(NotSource)
    else if sources[0].id == id then Ok(sources[0])
    else
      var r := FindSource(sources[1..], id);
      assert forall i :: 1 <= i < |sources| ==> sources[i] == sources[1..][i - 1];
      r
  }

  /** Appending never shadows: a later source with an already registered id is not found. */
  lemma {:induction false} FindAfterAppend(sources: seq<Source>, s: Source, id: FileId)
    ensures FindSource(sources + [s], id)
         == if FindSource(sources, id).Ok? then FindSource(sources, id)
            else if s.id == id then Ok(s) else Err(NotSource)
  {
    if sources != [] {
      assert (sources + [s])[1..] == sources[1..] + [s];
      FindAfterAppend(sources[1..], s, id);
    }
  }

  // ---- UTF-8 (RFC 3629, section 3) ----

  /** The UTF-8 encoding of one scalar value. */
  function EncodeChar(c: char): (bs: Bytes)
    ensures 1 <= |bs| <= 4
    ensures |bs| == 1 <==> c as int < 0x80
    ensures |bs| == 1 ==> bs[0] as int == c as int
    ensures |bs| == 2 <==> 0x80 <= c as int < 0x800
    ensures |bs| == 3 <==> 0x800 <= c as int < 0x1_0000
    ensures |bs| == 4 <==> 0x1_0000 <= c as int
    ensures |bs| == 2 ==> 0xC0 <= bs[0] < 0xE0
    ensures |bs| == 3 ==> 0xE0 <= bs[0] < 0xF0
    ensures |bs| == 4 ==> 0xF0 <= bs[0] < 0xF8
    ensures forall k :: 1 <= k < |bs| ==> 0x80 <= bs[k] < 0xC0
    // the payload bits, most significant first, spell the scalar value
    ensures |bs| == 2 ==> (bs[0] as int - 0xC0) * 0x40 + (bs[1] as int - 0x80) == c as int
    ensures |bs| == 3 ==> (bs[0] as int - 0xE0) * 0x1000 + (bs[1] as int - 0x80) * 0x40
                          + (bs[2] as int - 0x80) == c as int
    ensures |bs| == 4 ==> (bs[0] as int - 0xF0) * 0x4_0000 + (bs[1] as int - 0x80) * 0x1000
                          + (bs[2] as int - 0x80) * 0x40 + (bs[3] as int - 0x80) == c as int
  {
    var v := c as int;
    if v < 0x80 then [v as byte]
    else if v < 0x800 then
      var a, d := v / 0x40, v % 0x40;
      assert a * 0x40 + d == v;
      [(0xC0 + a) as byte, (0x80 + d) as byte]
    else if v < 0x1_0000 then
      var a, r := v / 0x1000, v % 0x1000;
      var b, d := r / 0x40, r % 0x40;
      assert a * 0x1000 + b * 0x40 + d == v;
      [(0xE0 + a) as byte, (0x80 + b) as byte, (0x80 + d) as byte]
    else
      var a, r := v / 0x4_0000, v % 0x4_0000;
      var b, r' := r / 0x1000, r % 0x1000;
      var x, d := r' / 0x40, r' % 0x40;
      assert a * 0x4_0000 + b * 0x1000 + x * 0x40 + d == v;
      [(0xF0 + a) as byte, (0x80 + b) as byte, (0x80 + x) as byte, (0x80 + d) as byte]
  }

  /** `str::as_bytes`: the UTF-8 encoding of a text, character by character. */
  function Utf8(s: string): (bs: Bytes)
  {
    if s == [] then [] else Utf8(s[..|s| - 1]) + EncodeChar(s[|s| - 1])
  }

  /** The encoding is never shorter than the text and is as long exactly when the text
      is ASCII, in which case each byte is its character's code. */
  lemma {:induction false} Utf8Length(s: string)
    ensures |Utf8(s)| >= |s|
    ensures |Utf8(s)| == |s| <==> forall i :: 0 <= i < |s| ==> s[i] as int < 0x80
    ensures |Utf8(s)| == |s| ==> forall i :: 0 <= i < |s| ==> Utf8(s)[i] as int == s[i] as int
  {
    if s != [] {
      var t := s[..|s| - 1];
      Utf8Length(t);
      assert forall i :: 0 <= i < |t| ==> t[i] == s[i];
    }
  }
}
