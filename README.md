# Torrent metainfo core, modelled in Dafny

This project models the synchronous core of a small BitTorrent client's
metainfo handling (`src/torrent_process/torrent_file.rs` and its older copy
`src/torrent_process/torrentFile.rs`):

- the decoded metainfo records (`FileType`, `Info`, `TorrentFile`, and the
  older copy's `Node`), as datatypes; `pieces` is raw bytes, `name`, `pieces`
  and `piece length` are required and every other field is an `Option`;
- `TorrentFile::id`, the info-hash: SHA-1 over the bencoding of the `info`
  dictionary alone (the metainfo section of BEP 3);
- `TorrentFile::split_piece_hashes`, the piece-hash table: a length check,
  then the `pieces` blob cut into 20-byte SHA-1 records in order, as a method
  with the source's loop, proved against the function `TorrentFile.SplitPieces`;
- `ProcessTorrent::new`, the session built from a loaded document, which either
  fails as a whole or holds the document, its info-hash, its piece hashes, its
  piece length and a peer id;
- `ProcessTorrent::build_tracker_URL` up to the URL library call: the seven
  announce query parameters, filled into a map by successive inserts, with the
  info-hash and the peer id percent-encoded as raw bytes.

Files and modules:

| file | module | models |
|---|---|---|
| wrappers.dfy | `Wrappers` | `Option`, `Result` |
| primitives.dfy | `Primitives` | `u8`, `i64`, 20-byte values, `GenericError` and its `Display` |
| decimal.dfy | `Decimal` | integer `to_string()` / `{}` formatting, with a parser as its inverse |
| percent_encoding.dfy | `PercentEncoding` | a percent-encoder written from sections 2.1 and 2.3 of RFC 3986, standing in for `urlencoding::encode_binary`, whose code is not part of this model, with a decoder as its inverse |
| piece_table.dfy | `PieceTable` | `slice::chunks(20)` and concatenation of the records |
| torrent_file.dfy | `TorrentFile` | `torrent_file.rs` |
| legacy_torrent_file.dfy | `LegacyTorrentFile` | `torrentFile.rs` |

Foreign collaborators are parameters. `serde_bencode::to_bytes` on an `Info` and
SHA-1 are the two fields of `TorrentFile.Codec`; the type of the SHA-1 field says
it yields 20 bytes. `NewSession` receives the loaded document as a `Result`: a
`Success` is the decoded document, and a `Failure` stands only for an I/O error
from opening or reading the file, given by its display text (a decode failure
panics inside `TorrentFile::new` and never reaches this error path). The
random peer id (`generate_id`) and the listening port (a global of the parent
module, whose declaration is not part of this model) are parameters too.

Behaviour of the code that the model keeps as written:

- `left` is the piece length, although BEP 3 defines `left` as the number of
  bytes still to download;
- a malformed `pieces` blob is a plain `GenericError` with the text
  "Received malformed pieces of length N";
- the missing-announce error is spelled "No announce url exits", as in the code.

`torrentFile.rs` declares `Info` and `FileType` with exactly the same fields
and serde attributes as `torrent_file.rs`. The model shares one definition of
each, and one `GenericError`.

## Model

| member | source | states |
|---|---|---|
| `Primitives.Display` | src/torrent_process/torrent_file.rs:27-31 | an error's display text ends with its message |
| `TorrentFile.IdDependsOnlyOnInfo` | src/torrent_process/torrent_file.rs:97-106 | two documents with equal `info` have equal ids, and the id is 20 bytes |
| `TorrentFile.IdIgnoresOuterFields` | src/torrent_process/torrent_file.rs:97-106 | replacing `announce`, `encoding`, `httpseeds`, `announce-list`, `creation date`, `comment` or `created by` never changes the id |
| `TorrentFile.SplitPiecesFails` | src/torrent_process/torrent_file.rs:108-119 | the split fails exactly when the blob's length is not a multiple of 20, and the length parses back out of the error message |
| `TorrentFile.SplitPiecesShape` | src/torrent_process/torrent_file.rs:120-124 | on success there are length/20 records, each 20 bytes, record i being bytes 20i to 20i+20 of the blob |
| `TorrentFile.SplitPiecesFlatten` | src/torrent_process/torrent_file.rs:120-122 | on success the records concatenate back to the blob |
| `TorrentFile.SplitPiecesOfHashes` | src/torrent_process/torrent_file.rs:107-125 | a blob made of any sequence of 20-byte hashes splits into exactly those hashes |
| `TorrentFile.SplitPieceHashes` | src/torrent_process/torrent_file.rs:107-125 | the loop that pushes one `chunks(20)` slice at a time returns exactly `SplitPieces` of the blob, error case included |
| `TorrentFile.NewSessionSpec` | src/torrent_process/torrent_file.rs:137-165 | a session exists exactly when the file loads and its pieces split, and it then holds the document, its id, the split's records (which concatenate to `pieces`), its piece length and the given peer id |
| `TorrentFile.NewSessionMalformedPieces` | src/torrent_process/torrent_file.rs:147-155 | a malformed blob makes the whole construction fail, no session, with the split's message wrapped in the processing error |
| `TorrentFile.BuildTrackerParams` | src/torrent_process/torrent_file.rs:168-183 | fails with "No announce url exits" exactly when there is no announce URL; otherwise the map has exactly the seven keys, `port` and `left` the decimal port and piece length (which parse back), `uploaded`/`downloaded` "0", `compact` "1", and `info_hash`/`peer_id` percent-encodings that decode back to the raw bytes |
| `TorrentFile.AnnounceKeysCount` | src/torrent_process/torrent_file.rs:176-183 | the seven announce keys are distinct |
| `PieceTable.ChunksStep` | src/torrent_process/torrent_file.rs:120-122 | taking one chunk at an offset leaves the chunks of the rest |
| `PieceTable.FlattenChunks` | src/torrent_process/torrent_file.rs:120-122 | the chunks of any blob concatenate back to it |
| `PieceTable.ChunksCount` | src/torrent_process/torrent_file.rs:120-122 | a blob whose length is a multiple of 20 has length/20 chunks |
| `PieceTable.ChunkAt` | src/torrent_process/torrent_file.rs:120-122 | chunk i of such a blob is its slice from 20i to 20i+20 |
| `PieceTable.FlattenLength` | src/torrent_process/torrent_file.rs:120-122 | n records of 20 bytes concatenate to 20n bytes |
| `PieceTable.ChunksFlatten` | src/torrent_process/torrent_file.rs:120-122 | cutting a concatenation of 20-byte records gives the same records back |
| `PercentEncoding.EncodeByte` | src/torrent_process/torrent_file.rs:173-174 | one byte becomes an unreserved character or '%' with two upper-case hex digits |
| `PercentEncoding.DecodeEncode` | src/torrent_process/torrent_file.rs:173-174 | decoding the encoding of any bytes gives those bytes back |
| `PercentEncoding.EncodeInjective` | src/torrent_process/torrent_file.rs:173-174 | distinct byte strings have distinct encodings |
| `PercentEncoding.EncodeIsUriSafe` | src/torrent_process/torrent_file.rs:173-174 | every character of an encoding is unreserved, '%' or an upper-case hex digit |
| `PercentEncoding.EncodeLength` | src/torrent_process/torrent_file.rs:173-174 | each byte becomes one to three characters |
| `PercentEncoding.EncodeZeros` | src/torrent_process/torrent_file.rs:173 | n zero bytes encode as n copies of "%00" (so an all-zero info-hash is twenty of them) |
| `Decimal.NatToString` | src/torrent_process/torrent_file.rs:113-115 | the formatted length is a non-empty string of digits with no leading zero |
| `Decimal.ParseNatToString` | src/torrent_process/torrent_file.rs:113-115 | the formatted length parses back to the length |
| `Decimal.ParseIntToString` | src/torrent_process/torrent_file.rs:177-181 | the formatted port and piece length parse back to themselves |
| `Decimal.IntToStringInjective` | src/torrent_process/torrent_file.rs:181 | distinct integers format differently |
| `LegacyTorrentFile.IdIgnoresOuterFields` | src/torrent_process/torrentFile.rs:95-106 | replacing any field outside `info`, `nodes` and `announce` among them, never changes the id |
| `LegacyTorrentFile.IdAgrees` | src/torrent_process/torrentFile.rs:95-106 | the older `id` equals the newer one on documents with the same `info` |
| `LegacyTorrentFile.SplitPieceHashes` | src/torrent_process/torrentFile.rs:107-125 | the older loop returns exactly `TorrentFile.SplitPieces` of the blob, the function the newer copy is proved against, so the two agree on every input |

## Left out

- Reading the torrent file with `tokio::fs::File` (`TorrentFile::new`): asynchronous I/O; its outcome is a parameter of `NewSession`.
- Decoding and encoding bencode through `serde_bencode`, including the `panic!` when either fails: a foreign library; `to_bytes` is a parameter and the decoded document is an input.
- SHA-1 (`sha1::Sha1`): foreign cryptographic code; a parameter known only to return 20 bytes.
- `Url::parse_with_params`, its error path, and the `urlencoding::decode` of the finished URL in `build_tracker_URL`: a foreign URL library; `params` is a `HashMap`, so the byte layout of the final string is not fixed by the code either. The model stops at the base URL and the parameter map.
- The code of `urlencoding::encode_binary` is not part of this model; `PercentEncoding.PercentEncode` stands in for it and is written from sections 2.1 and 2.3 of RFC 3986 (unreserved `A-Z a-z 0-9 - . _ ~` kept, everything else `%XX` in upper case).
- `request_peers`: a network call through `reqwest`.
- `generate_id`: randomness; the peer id is a parameter.
- The `ProcessTorrent` struct of `torrentFile.rs`: it is declared but nothing builds or uses it.
- The tracker response record and the peer record (`tracker.rs`, `peers.rs`): a serde struct decoded with a panic on error, and a struct with no operations; no compact peer-list decoder exists in the code.
- The HTTP server in `main.rs`.
- The `Hash` derives and the `Debug` output of the records: nothing in the core uses them.
