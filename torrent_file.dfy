/**
 * The metainfo handling of `src/torrent_process/torrent_file.rs`: the decoded
 * torrent records, the info-hash, the piece-hash table, the session built from
 * them, and the query parameters of the tracker announce.
 *
 * The bencode serializer and SHA-1 are outside the model: they are passed in
 * as a `Codec`, of which the model only knows that SHA-1 yields 20 bytes.
 */
module TorrentFile {
  import opened Wrappers
  import opened Primitives
  import opened Decimal
  import opened PercentEncoding
  import opened PieceTable

  /** One entry of the multi-file list. */
  datatype FileType = FileType(path: seq<string>, length: i64, md5sum: Option<string>)

  /** The `info` dictionary: `name`, `pieces` and `piece length` are required. */
  datatype Info = Info(
    name: string,
    pieces: seq<byte>,
    pieceLength: i64,
    md5sum: Option<string>,
    length: Option<i64>,
    files: Option<seq<FileType>>,
    private: Option<u8>,
    path: Option<seq<string>>,
    rootHash: Option<string>)

  /** The whole metainfo document. */
  datatype TorrentFile = TorrentFile(
    info: Info,
    announce: Option<string>,
    encoding: Option<string>,
    httpseeds: Option<seq<string>>,
    announceList: Option<seq<seq<string>>>,
    creationDate: Option<i64>,
    comment: Option<string>,
    createdBy: Option<string>)

  /** The two foreign collaborators of `id`: `serde_bencode::to_bytes` on an `Info`, and SHA-1. */
  datatype Codec = Codec(bencode: Info -> seq<byte>, sha1: seq<byte> -> Bytes20)

  /** `TorrentFile::id`: SHA-1 over the bencoding of the `info` dictionary alone. */
  function Id(t: TorrentFile, c: Codec): Bytes20 {
    c.sha1(c.bencode(t.info))
  }

  /** The info-hash is a function of `info`: documents that agree on it agree on the id. */
  lemma IdDependsOnlyOnInfo(t: TorrentFile, u: TorrentFile, c: Codec)
    requires t.info == u.info
    ensures Id(t, c) == Id(u, c)
    ensures |Id(t, c)| == 20
  {
  }

  /** Changing any field outside `info` (the announce URL, the comment, …) leaves the id alone. */
  lemma IdIgnoresOuterFields(t: TorrentFile, c: Codec,
                             announce: Option<string>, encoding: Option<string>,
                             httpseeds: Option<seq<string>>, announceList: Option<seq<seq<string>>>,
                             creationDate: Option<i64>, comment: Option<string>, createdBy: Option<string>)
    ensures Id(TorrentFile(t.info, announce, encoding, httpseeds, announceList,
                           creationDate, comment, createdBy), c) == Id(t, c)
  {
  }

  /** The error text of a `pieces` blob whose length is not a multiple of 20. */
  function MalformedPiecesMessage(len: nat): string {
    "Received malformed pieces of length " + NatToString(len)
  }

  /** What `split_piece_hashes` computes from the `pieces` blob. */
  function SplitPieces(pieces: seq<byte>): Result<seq<seq<byte>>, GenericError> {
    if |pieces| % 20 != 0 then Failure(GenericError(MalformedPiecesMessage(|pieces|)))
    else Success(Chunks(pieces))
  }

  /** The split fails exactly on a length that is not a multiple of 20, and the message reports that length. */
  lemma SplitPiecesFails(pieces: seq<byte>)
    ensures SplitPieces(pieces).Failure? <==> |pieces| % 20 != 0
    ensures SplitPieces(pieces).Failure? ==>
      var msg := SplitPieces(pieces).error.msg;
      var prefix := "Received malformed pieces of length ";
      |msg| > |prefix| && msg[..|prefix|] == prefix && ParseNat(msg[|prefix|..]) == Some(|pieces|)
  {
    var prefix := "Received malformed pieces of length ";
    var msg := MalformedPiecesMessage(|pieces|);
    assert msg[|prefix|..] == NatToString(|pieces|);
    ParseNatToString(|pieces|);
  }

  /** On success: one 20-byte record per piece, record `i` being bytes `20*i .. 20*i+20`. */
  lemma SplitPiecesShape(pieces: seq<byte>)
    ensures SplitPieces(pieces).Success? ==>
      var hashes := SplitPieces(pieces).value;
      && |hashes| == |pieces| / 20
      && forall i | 0 <= i < |hashes| :: |hashes[i]| == 20 && hashes[i] == pieces[20 * i .. 20 * i + 20]
  {
    if |pieces| % 20 == 0 {
      ChunksCount(pieces);
      forall i | 0 <= i < |pieces| / 20
        ensures Chunks(pieces)[i] == pieces[20 * i .. 20 * i + 20]
      {
        ChunkAt(pieces, i);
      }
    }
  }

  /** On success the records concatenate back to the blob: order kept, nothing dropped. */
  lemma SplitPiecesFlatten(pieces: seq<byte>)
    ensures SplitPieces(pieces).Success? ==> Flatten(SplitPieces(pieces).value) == pieces
  {
    FlattenChunks(pieces);
  }

  /** Conversely, the blob made of any sequence of 20-byte hashes splits into exactly those hashes. */
  lemma SplitPiecesOfHashes(hashes: seq<seq<byte>>)
    requires AllHashSized(hashes)
    ensures SplitPieces(Flatten(hashes)) == Success(hashes)
  {
    FlattenLength(hashes);
    ChunksFlatten(hashes);
  }

  /**
   * `TorrentFile::split_piece_hashes`: the length check, then one push per
   * `chunks(20)` slice, in order.
   */
  method SplitPieceHashes(t: TorrentFile) returns (r: Result<seq<seq<byte>>, GenericError>)
    ensures r == SplitPieces(t.info.pieces)
  {
    var hashLen := 20;
    var tempPieces := t.info.pieces;
    var pieceHashes: seq<seq<byte>> := [];
    if |t.info.pieces| % hashLen != 0 {
      return Failure(GenericError(MalformedPiecesMessage(|t.info.pieces|)));
    }
    var off := 0;
    while off < |tempPieces|
      invariant 0 <= off <= |tempPieces|
      invariant pieceHashes + Chunks(tempPieces[off..]) == Chunks(tempPieces)
      decreases |tempPieces| - off
    {
      var end := if off + hashLen <= |tempPieces| then off + hashLen else |tempPieces|;
      ChunksStep(tempPieces, off);
      pieceHashes := pieceHashes + [tempPieces[off..end]];
      off := end;
    }
    assert tempPieces[off..] == [] && pieceHashes + [] == pieceHashes;
    return Success(pieceHashes);
  }

  /** `ProcessTorrent`: one session for one torrent. */
  datatype ProcessTorrent = ProcessTorrent(
    t: TorrentFile,
    infoHash: Bytes20,
    pieceHashes: seq<seq<byte>>,
    pieceLength: i64,
    peerId: Bytes20)

  /** The text every failure of `ProcessTorrent::new` carries. */
  function ProcessingError(fileName: string, cause: string): GenericError {
    GenericError("error occur while processing " + fileName + " -> " + cause)
  }

  /**
   * `ProcessTorrent::new`. Reading and decoding the file are outside the model:
   * `loaded` is their outcome. A `Failure` stands only for an I/O error from
   * opening or reading the file, given by its display text; a decode failure
   * panics inside `TorrentFile::new` and never reaches this path.
   * `peerId` is the value `generate_id` supplies.
   */
  function NewSession(fileName: string, loaded: Result<TorrentFile, string>, peerId: Bytes20, c: Codec)
    : Result<ProcessTorrent, GenericError>
  {
    match loaded
    case Failure(e) => Failure(ProcessingError(fileName, e))
    case Success(t) =>
      match SplitPieces(t.info.pieces)
      case Failure(e) => Failure(ProcessingError(fileName, Display(e)))
      case Success(pieceHashes) =>
        Success(ProcessTorrent(t, Id(t, c), pieceHashes, t.info.pieceLength, peerId))
  }

  /**
   * A session is built exactly when the file loads and its pieces split; it then
   * holds the document, its id, its piece hashes, its piece length and the peer id.
   */
  lemma NewSessionSpec(fileName: string, loaded: Result<TorrentFile, string>, peerId: Bytes20, c: Codec)
    ensures NewSession(fileName, loaded, peerId, c).Success? <==>
      loaded.Success? && |loaded.value.info.pieces| % 20 == 0
    ensures NewSession(fileName, loaded, peerId, c).Success? ==>
      var s := NewSession(fileName, loaded, peerId, c).value;
      && s.t == loaded.value
      && s.infoHash == Id(loaded.value, c)
      && Success(s.pieceHashes) == SplitPieces(loaded.value.info.pieces)
      && Flatten(s.pieceHashes) == loaded.value.info.pieces
      && s.pieceLength == loaded.value.info.pieceLength
      && s.peerId == peerId
  {
    if loaded.Success? {
      SplitPiecesFlatten(loaded.value.info.pieces);
    }
  }

  /** A malformed `pieces` blob fails the whole construction, with the split's message inside. */
  lemma NewSessionMalformedPieces(fileName: string, t: TorrentFile, peerId: Bytes20, c: Codec)
    requires |t.info.pieces| % 20 != 0
    ensures NewSession(fileName, Success(t), peerId, c) ==
      Failure(ProcessingError(fileName, "There is an error: " + MalformedPiecesMessage(|t.info.pieces|)))
  {
  }

  /** The parameters of a tracker announce, before the URL library joins them to the base URL. */
  datatype AnnounceRequest = AnnounceRequest(announce: string, params: map<string, string>)

  /** The seven query keys of an announce. */
  const AnnounceKeys: set<string> :=
    {"port", "uploaded", "downloaded", "compact", "left", "info_hash", "peer_id"}

  /**
   * `ProcessTorrent::build_tracker_URL` up to the call to `Url::parse_with_params`.
   * `port` is the listening port the parent module holds as a global.
   */
  method BuildTrackerParams(p: ProcessTorrent, port: int) returns (r: Result<AnnounceRequest, GenericError>)
    ensures r.Failure? <==> p.t.announce.None?
    ensures r.Failure? ==> r.error == GenericError("No announce url exits")
    ensures r.Success? ==>
      var params := r.value.params;
      && r.value.announce == p.t.announce.value
      && params.Keys == AnnounceKeys
      && params["port"] == IntToString(port)
      && params["uploaded"] == "0"
      && params["downloaded"] == "0"
      && params["compact"] == "1"
      && params["left"] == IntToString(p.pieceLength)
      && params["info_hash"] == PercentEncode(p.infoHash)
      && params["peer_id"] == PercentEncode(p.peerId)
    ensures r.Success? ==>
      var params := r.value.params;
      && ParseInt(params["port"]) == Some(port)
      && ParseInt(params["left"]) == Some(p.pieceLength as int)
      && PercentDecode(params["info_hash"]) == Some(p.infoHash)
      && PercentDecode(params["peer_id"]) == Some(p.peerId)
  {
    if p.t.announce.None? {
      return Failure(GenericError("No announce url exits"));
    }
    var announce := p.t.announce.value;
    var infoHash := PercentEncode(p.infoHash);
    var peerId := PercentEncode(p.peerId);

    var params: map<string, string> := map[];
    params := params["port" := IntToString(port)];
    params := params["uploaded" := "0"];
    params := params["downloaded" := "0"];
    params := params["compact" := "1"];
    params := params["left" := IntToString(p.pieceLength)];
    params := params["info_hash" := infoHash];
    params := params["peer_id" := peerId];

    ParseIntToString(port);
    ParseIntToString(p.pieceLength);
    DecodeEncode(p.infoHash);
    DecodeEncode(p.peerId);
    return Success(AnnounceRequest(announce, params));
  }

  /** The announce carries seven distinct keys. */
  lemma AnnounceKeysCount()
    ensures |AnnounceKeys| == 7
  {
  }
}
