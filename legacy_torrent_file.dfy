/**
 * The older copy of the metainfo handling, `src/torrent_process/torrentFile.rs`.
 * Its `Info` and `FileType` records are field-for-field those of
 * `torrent_file.rs` and are shared; its document adds a DHT `nodes` list.
 * Its `id` and `split_piece_hashes` are modelled here and shown to agree
 * with the newer copy.
 */
module LegacyTorrentFile {
  import opened Wrappers
  import opened Primitives
  import opened PieceTable
  import Current = TorrentFile

  /** A DHT bootstrap node: host and port. */
  datatype Node = Node(host: string, port: i64)

  /** The whole metainfo document, with the `nodes` list. */
  datatype TorrentFile = TorrentFile(
    info: Current.Info,
    announce: Option<string>,
    nodes: Option<seq<Node>>,
    encoding: Option<string>,
    httpseeds: Option<seq<string>>,
    announceList: Option<seq<seq<string>>>,
    creationDate: Option<i64>,
    comment: Option<string>,
    createdBy: Option<string>)

  /** `TorrentFile::id`: SHA-1 over the bencoding of `info`. */
  function Id(t: TorrentFile, c: Current.Codec): Bytes20 {
    c.sha1(c.bencode(t.info))
  }

  /** Replacing any field outside `info`, `nodes` and `announce` among them, never changes the id. */
  lemma IdIgnoresOuterFields(t: TorrentFile, c: Current.Codec,
                             announce: Option<string>, nodes: Option<seq<Node>>, encoding: Option<string>,
                             httpseeds: Option<seq<string>>, announceList: Option<seq<seq<string>>>,
                             creationDate: Option<i64>, comment: Option<string>, createdBy: Option<string>)
    ensures Id(TorrentFile(t.info, announce, nodes, encoding, httpseeds, announceList,
                           creationDate, comment, createdBy), c) == Id(t, c)
  {
  }

  /** The two copies of `id` give the same digest for the same `info`. */
  lemma IdAgrees(t: TorrentFile, u: Current.TorrentFile, c: Current.Codec)
    requires t.info == u.info
    ensures Id(t, c) == Current.Id(u, c)
  {
  }

  /**
   * `TorrentFile::split_piece_hashes`, the same length check and `chunks(20)`
   * loop as the newer copy; its result is the same function of `pieces`, so the
   * two agree on every input.
   */
  method SplitPieceHashes(t: TorrentFile) returns (r: Result<seq<seq<byte>>, GenericError>)
    ensures r == Current.SplitPieces(t.info.pieces)
  {
    var hashLen := 20;
    var tempPieces := t.info.pieces;
    var pieceHashes: seq<seq<byte>> := [];
    if |t.info.pieces| % hashLen != 0 {
      return Failure(GenericError(Current.MalformedPiecesMessage(|t.info.pieces|)));
    }
    var off := 0;
    while off < |tempPieces|
      invariant 0 <= off <= |tempPieces|
      invariant pieceHashes + Chunks(tempPieces[off..]) == Chunks(tempPieces)
      decreases |tempPieces| - off
    {
      var end := if off + hashLen <= |tempPieces| then off + hashLen else |tempPieces|;
      ChunksStep(tempPieces, off);
      pieceHashes := pieceHashes + [tempPieces[off..end]];
      off := end;
    }
    assert tempPieces[off..] == [] && pieceHashes + [] == pieceHashes;
    return Success(pieceHashes);
  }
}
