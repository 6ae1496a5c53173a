/** Starting a level: reading the level header and its actor list, the
    difficulty markers that hide actors, spawning the actors in draw-index
    passes, centring the camera on the player, taking damage, and resetting
    the game state (with or without an activated respawn beacon). */
module LevelStart {
  import opened Words
  import LevelUtil
  import Inventory
  import Pools

  // ---------------------------------------------------------------------
  // The level header
  // ---------------------------------------------------------------------

  const TILESET_FILENAME_OFFSET: nat := 0
  const BACKDROP_FILENAME_OFFSET: nat := 13
  const MUSIC_FILENAME_OFFSET: nat := 26
  const FLAGS_OFFSET: nat := 39
  const ACTOR_LIST_SIZE_OFFSET: nat := 43
  const ACTOR_LIST_OFFSET: nat := 45

  /** READ_LVL_HEADER_WORD(o): the little-endian word at byte offset o. */
  function HeaderWord(h: seq<byte>, o: nat): (w: word)
    requires o + 1 < |h|
    ensures LowByte(w) == h[o] && HighByte(w) == h[o + 1]
  {
    WordBytesRoundTrip(h[o], h[o + 1], MakeWord(h[o], h[o + 1]));
    MakeWord(h[o], h[o + 1])
  }

  /** The two bytes a word is stored as. */
  function WordBytes(w: word): (b: seq<byte>)
    ensures |b| == 2
  {
    [LowByte(w), HighByte(w)]
  }

  lemma HeaderWordReadsWordBytes(prefix: seq<byte>, w: word, suffix: seq<byte>)
    ensures HeaderWord(prefix + WordBytes(w) + suffix, |prefix|) == w
  {
    var h := prefix + WordBytes(w) + suffix;
    assert h[|prefix|] == LowByte(w) && h[|prefix| + 1] == HighByte(w);
    WordBytesRoundTrip(LowByte(w), HighByte(w), w);
  }

  /** One actor description: three words. */
  datatype ActorDesc = ActorDesc(id: word, x: word, y: word)

  /** READ_LVL_ACTOR_DESC_ID/X/Y(i): the description at byte index i of the
      actor list. */
  function DescAt(h: seq<byte>, i: nat): (d: ActorDesc)
    requires ACTOR_LIST_OFFSET + i + 6 <= |h|
  {
    ReadDesc(h, ACTOR_LIST_OFFSET + i)
  }

  function ReadDesc(h: seq<byte>, o: nat): ActorDesc
    requires o + 6 <= |h|
  {
    ActorDesc(HeaderWord(h, o), HeaderWord(h, o + 2), HeaderWord(h, o + 4))
  }

  function EncodeDesc(d: ActorDesc): (b: seq<byte>)
    ensures |b| == 6
  {
    WordBytes(d.id) + WordBytes(d.x) + WordBytes(d.y)
  }

  function EncodeDescs(ds: seq<ActorDesc>): (b: seq<byte>)
    ensures |b| == 6 * |ds|
  {
    if ds == [] then [] else EncodeDesc(ds[0]) + EncodeDescs(ds[1..])
  }

  /** A 13-byte filename slot: an 8.3 name and its NUL. */
  function FilenameAt(h: seq<byte>, offset: nat): seq<byte>
    requires offset + 13 <= |h|
  {
    h[offset..offset + 13]
  }

  /** A well-formed level header as the level files store it: the three
      filename slots, the flag bytes, the actor list size in words, the
      actor list and the map width. The header size is the length. */
  function BuildHeader(tileset: seq<byte>, backdrop: seq<byte>, music: seq<byte>,
                       flags: bv8, altBackdrop: byte,
                       actors: seq<ActorDesc>, width: word): (h: seq<byte>)
    requires |tileset| == 13 && |backdrop| == 13 && |music| == 13 && 3 * |actors| < 0x1_0000
    ensures |h| == ACTOR_LIST_OFFSET + 6 * |actors| + 2
  {
    tileset + backdrop + music + [flags as byte, altBackdrop, 0, 0] + WordBytes(3 * |actors|) +
    EncodeDescs(actors) + WordBytes(width)
  }

  /** What LoadLevelHeader takes from the header, before SetMapSize. */
  datatype HeaderInfo = HeaderInfo(mapWidth: word, actorListSize: word, flags: LevelUtil.LevelFlags)

  /** The header fields: the map width is the last word of the header, the
      actor list size the word at 43, and bytes 39 to 42 go to
      ParseLevelFlags. */
  function ParseHeader(h: seq<byte>): (info: HeaderInfo)
    requires |h| >= ACTOR_LIST_OFFSET
  {
    HeaderInfo(HeaderWord(h, |h| - 2), HeaderWord(h, ACTOR_LIST_SIZE_OFFSET),
               LevelUtil.ParseLevelFlags(h[FLAGS_OFFSET] as bv8, h[40], h[41], h[42]))
  }

  lemma {:induction false} EncodeDescsAt(ds: seq<ActorDesc>, k: nat, prefix: seq<byte>, suffix: seq<byte>)
    requires k < |ds|
    ensures var h := prefix + EncodeDescs(ds) + suffix;
      |prefix| + 6 * k + 6 <= |h| && ReadDesc(h, |prefix| + 6 * k) == ds[k]
    decreases |ds|
  {
    var h := prefix + EncodeDescs(ds) + suffix;
    var rest := EncodeDescs(ds[1..]) + suffix;
    if k == 0 {
      var d := ds[0];
      var p1, p2 := prefix + WordBytes(d.id), prefix + WordBytes(d.id) + WordBytes(d.x);
      assert h == prefix + WordBytes(d.id) + (WordBytes(d.x) + WordBytes(d.y) + rest);
      assert h == p1 + WordBytes(d.x) + (WordBytes(d.y) + rest);
      assert h == p2 + WordBytes(d.y) + rest;
      HeaderWordReadsWordBytes(prefix, d.id, WordBytes(d.x) + WordBytes(d.y) + rest);
      HeaderWordReadsWordBytes(p1, d.x, WordBytes(d.y) + rest);
      HeaderWordReadsWordBytes(p2, d.y, rest);
    } else {
      EncodeDescsAt(ds[1..], k - 1, prefix + EncodeDesc(ds[0]), suffix);
      assert h == (prefix + EncodeDesc(ds[0])) + EncodeDescs(ds[1..]) + suffix;
    }
  }

  /** Reading back a well-formed header yields what it was built from: the
      three filenames at 0, 13 and 26, the width from the last word, an
      actor list size of three words per actor, the flag bytes, and actor
      description k at byte 6k of the list, three words after the one
      before it. */
  lemma HeaderRoundTrip(tileset: seq<byte>, backdrop: seq<byte>, music: seq<byte>,
                        flags: bv8, altBackdrop: byte,
                        actors: seq<ActorDesc>, width: word, k: nat)
    requires |tileset| == 13 && |backdrop| == 13 && |music| == 13 && 3 * |actors| < 0x1_0000
    requires k < |actors|
    ensures var h := BuildHeader(tileset, backdrop, music, flags, altBackdrop, actors, width);
      FilenameAt(h, TILESET_FILENAME_OFFSET) == tileset &&
      FilenameAt(h, BACKDROP_FILENAME_OFFSET) == backdrop &&
      FilenameAt(h, MUSIC_FILENAME_OFFSET) == music &&
      ParseHeader(h) == HeaderInfo(width, 3 * |actors|, LevelUtil.ParseLevelFlags(flags, altBackdrop, 0, 0)) &&
      DescAt(h, 6 * k) == actors[k]
  {
    HeaderFilenames(tileset, backdrop, music, flags, altBackdrop, actors, width);
    HeaderFields(tileset, backdrop, music, flags, altBackdrop, actors, width);
    HeaderDescs(tileset, backdrop, music, flags, altBackdrop, actors, width, k);
  }

  /** The three filename slots of a built header. */
  lemma HeaderFilenames(tileset: seq<byte>, backdrop: seq<byte>, music: seq<byte>,
                        flags: bv8, altBackdrop: byte, actors: seq<ActorDesc>, width: word)
    requires |tileset| == 13 && |backdrop| == 13 && |music| == 13 && 3 * |actors| < 0x1_0000
    ensures var h := BuildHeader(tileset, backdrop, music, flags, altBackdrop, actors, width);
      FilenameAt(h, TILESET_FILENAME_OFFSET) == tileset &&
      FilenameAt(h, BACKDROP_FILENAME_OFFSET) == backdrop &&
      FilenameAt(h, MUSIC_FILENAME_OFFSET) == music
  {
    var h := BuildHeader(tileset, backdrop, music, flags, altBackdrop, actors, width);
    var rest := [flags as byte, altBackdrop, 0, 0] + WordBytes(3 * |actors|) + EncodeDescs(actors) + WordBytes(width);
    assert h == tileset + backdrop + music + rest;
    assert h[..13] == tileset && h[13..26] == backdrop && h[26..39] == music;
  }

  /** The fields ParseHeader reads from a built header. */
  lemma HeaderFields(tileset: seq<byte>, backdrop: seq<byte>, music: seq<byte>,
                     flags: bv8, altBackdrop: byte, actors: seq<ActorDesc>, width: word)
    requires |tileset| == 13 && |backdrop| == 13 && |music| == 13 && 3 * |actors| < 0x1_0000
    ensures var h := BuildHeader(tileset, backdrop, music, flags, altBackdrop, actors, width);
      ParseHeader(h) == HeaderInfo(width, 3 * |actors|, LevelUtil.ParseLevelFlags(flags, altBackdrop, 0, 0))
  {
    var h := BuildHeader(tileset, backdrop, music, flags, altBackdrop, actors, width);
    var names := tileset + backdrop + music + [flags as byte, altBackdrop, 0, 0];
    var prefix := names + WordBytes(3 * |actors|);
    assert h == names + WordBytes(3 * |actors|) + (EncodeDescs(actors) + WordBytes(width));
    HeaderWordReadsWordBytes(names, 3 * |actors|, EncodeDescs(actors) + WordBytes(width));
    assert h == prefix + EncodeDescs(actors) + WordBytes(width) + [];
    HeaderWordReadsWordBytes(prefix + EncodeDescs(actors), width, []);
    assert h[FLAGS_OFFSET] == flags as byte && h[40] == altBackdrop && h[41] == 0 && h[42] == 0;
  }

  /** Actor description k of a built header. */
  lemma HeaderDescs(tileset: seq<byte>, backdrop: seq<byte>, music: seq<byte>,
                    flags: bv8, altBackdrop: byte, actors: seq<ActorDesc>, width: word, k: nat)
    requires |tileset| == 13 && |backdrop| == 13 && |music| == 13 && 3 * |actors| < 0x1_0000
    requires k < |actors|
    ensures var h := BuildHeader(tileset, backdrop, music, flags, altBackdrop, actors, width);
      ACTOR_LIST_OFFSET + 6 * k + 6 <= |h| && DescAt(h, 6 * k) == actors[k]
  {
    var h := BuildHeader(tileset, backdrop, music, flags, altBackdrop, actors, width);
    var prefix := tileset + backdrop + music + [flags as byte, altBackdrop, 0, 0] + WordBytes(3 * |actors|);
    assert h == prefix + EncodeDescs(actors) + WordBytes(width);
    EncodeDescsAt(actors, k, prefix, WordBytes(width));
  }

  /** LoadLevelHeader: the header fields, then SetMapSize with the map
      width. The header is the `headerSize` bytes after the size word. */
  method LoadLevelHeader(h: seq<byte>, size: LevelUtil.MapSize) returns (info: HeaderInfo, size': LevelUtil.MapSize)
    requires |h| >= ACTOR_LIST_OFFSET
    ensures info == ParseHeader(h)
    ensures info.mapWidth == h[|h| - 2] as int + 256 * h[|h| - 1] as int
    ensures info.actorListSize == h[43] as int + 256 * h[44] as int
    ensures info.mapWidth in LevelUtil.MAP_WIDTHS ==>
              Pow2(size'.widthShift) == info.mapWidth && size'.bottom == 32768 / info.mapWidth - 2
    ensures info.mapWidth !in LevelUtil.MAP_WIDTHS ==> size' == size
  {
    info := ParseHeader(h);
    size' := LevelUtil.SetMapSize(size, info.mapWidth);
  }

  // ---------------------------------------------------------------------
  // Difficulty markers and the actor list walks
  // ---------------------------------------------------------------------

  const DIFFICULTY_EASY: byte := 1
  const DIFFICULTY_MEDIUM: byte := 2
  const DIFFICULTY_HARD: byte := 3

  /** The two marker actor types; their numbers live in the actor table. */
  datatype MarkerIds = MarkerIds(mediumHardOnly: word, hardOnly: word)

  /** CheckDifficultyMarker(id): true when the actor after this one is to
      be left out at the current difficulty. */
  predicate CheckDifficultyMarker(ids: MarkerIds, id: word, difficulty: byte)
  {
    (id == ids.mediumHardOnly && difficulty == DIFFICULTY_EASY) ||
    (id == ids.hardOnly && difficulty != DIFFICULTY_HARD)
  }

  /** Which markers skip at which difficulty: on easy both do, on medium only
      the hard-only marker, on hard none; no other actor id ever skips. */
  lemma DifficultyMarkerTable(ids: MarkerIds, id: word)
    ensures CheckDifficultyMarker(ids, id, DIFFICULTY_EASY) <==> id == ids.mediumHardOnly || id == ids.hardOnly
    ensures CheckDifficultyMarker(ids, id, DIFFICULTY_MEDIUM) <==> id == ids.hardOnly
    ensures !CheckDifficultyMarker(ids, id, DIFFICULTY_HARD)
  {
  }

  /** The loop bound of both walks: levelActorListSize * 2 in 16-bit
      unsigned arithmetic. */
  function ListBytes(actorListSize: word): word
  {
    Wrap16(actorListSize * 2)
  }

  /** A header whose actor list holds whole descriptions. */
  predicate WellFormedList(h: seq<byte>, limit: nat)
  {
    limit % 6 == 0 && ACTOR_LIST_OFFSET + limit <= |h|
  }

  /** The actor list decoded: description k is the one at byte index 6k,
      which is where the walks' counter i (stepping by 6) reads it. */
  function Descriptions(h: seq<byte>, limit: nat): (ds: seq<ActorDesc>)
    requires WellFormedList(h, limit)
    ensures |ds| == limit / 6
    ensures forall k :: 0 <= k < |ds| ==> ds[k] == DescAt(h, 6 * k)
  {
    seq(limit / 6, k requires 0 <= k < limit / 6 => DescAt(h, 6 * k))
  }

  /** The descriptions the walk from description k handles: one step per
      description, and a marker also jumps over the next one. */
  function ActorWalk(ds: seq<ActorDesc>, ids: MarkerIds, difficulty: byte, k: nat): (w: seq<nat>)
    ensures forall j :: 0 <= j < |w| ==> k <= w[j] < |ds|
    ensures forall j :: 0 <= j < |w| ==> !CheckDifficultyMarker(ids, ds[w[j]].id, difficulty)
    ensures forall j, l :: 0 <= j < l < |w| ==> w[j] < w[l]
    decreases |ds| - k
  {
    if k >= |ds| then []
    else if CheckDifficultyMarker(ids, ds[k].id, difficulty) then ActorWalk(ds, ids, difficulty, k + 2)
    else [k] + ActorWalk(ds, ids, difficulty, k + 1)
  }

  /** The descriptions from k on. */
  function AllFrom(k: nat, n: nat): seq<nat>
    decreases n - k
  {
    if k >= n then [] else [k] + AllFrom(k + 1, n)
  }

  /** Without markers the walk visits every description, in order. */
  lemma {:induction false} NoMarkersVisitsAll(ds: seq<ActorDesc>, ids: MarkerIds, difficulty: byte, k: nat)
    requires forall j :: k <= j < |ds| ==> !CheckDifficultyMarker(ids, ds[j].id, difficulty)
    ensures ActorWalk(ds, ids, difficulty, k) == AllFrom(k, |ds|)
    decreases |ds| - k
  {
    if k < |ds| {
      NoMarkersVisitsAll(ds, ids, difficulty, k + 1);
    }
  }

  /** A marker hides itself and the description after it, whatever that
      one is (even another marker); the walk carries on after both. */
  lemma MarkerHidesNext(ds: seq<ActorDesc>, ids: MarkerIds, difficulty: byte, k: nat)
    requires k < |ds| && CheckDifficultyMarker(ids, ds[k].id, difficulty)
    ensures var w := ActorWalk(ds, ids, difficulty, k);
      k !in w && k + 1 !in w && w == ActorWalk(ds, ids, difficulty, k + 2)
  {
  }

  /** LoadSpritesForLevel: the actor ids whose sprites get loaded, in order. */
  function LoadSpritesForLevel(ds: seq<ActorDesc>, ids: MarkerIds, difficulty: byte): (loaded: seq<word>)
    ensures forall j :: 0 <= j < |loaded| ==> !CheckDifficultyMarker(ids, loaded[j], difficulty)
  {
    var w := ActorWalk(ds, ids, difficulty, 0);
    seq(|w|, j requires 0 <= j < |w| => ds[w[j]].id)
  }

  /** One spawn attempt of SpawnLevelActors: the slot offered (gmNumActors),
      the description's index and contents, and whether the spawn
      succeeded. */
  datatype Attempt = Attempt(slot: word, at: nat, desc: ActorDesc, spawned: bool)

  predicate InList(ds: seq<ActorDesc>, w: seq<nat>)
  {
    forall j :: 0 <= j < |w| ==> w[j] < |ds|
  }

  /** The descriptions of a walk whose draw index matches a pass. The draw
      index is a word compared with the int pass number, so pass -1 matches
      draw index 0xFFFF. */
  function Matching(ds: seq<ActorDesc>, w: seq<nat>, drawIndexOf: word -> word, pass: int): (m: seq<nat>)
    requires InList(ds, w)
  {
    if w == [] then []
    else (if drawIndexOf(ds[w[0]].id) == Wrap16(pass) then [w[0]] else []) +
         Matching(ds, w[1..], drawIndexOf, pass)
  }

  /** One pass over the walk: each matching description is offered slot
      gmNumActors, which advances (16-bit) on success. */
  function SpawnPass(ds: seq<ActorDesc>, w: seq<nat>, drawIndexOf: word -> word,
                     spawn: (word, ActorDesc) -> bool, pass: int, numActors: word): (r: (seq<Attempt>, word))
    requires InList(ds, w)
  {
    if w == [] then ([], numActors)
    else if drawIndexOf(ds[w[0]].id) == Wrap16(pass) then
      var d := ds[w[0]];
      var ok := spawn(numActors, d);
      var next := if ok then Wrap16(numActors + 1) else numActors;
      var rest := SpawnPass(ds, w[1..], drawIndexOf, spawn, pass, next);
      ([Attempt(numActors, w[0], d, ok)] + rest.0, rest.1)
    else SpawnPass(ds, w[1..], drawIndexOf, spawn, pass, numActors)
  }

  function Successes(a: seq<Attempt>): nat
  {
    if a == [] then 0 else (if a[0].spawned then 1 else 0) + Successes(a[1..])
  }

  function AttemptedAt(a: seq<Attempt>): seq<nat>
  {
    if a == [] then [] else [a[0].at] + AttemptedAt(a[1..])
  }

  lemma {:induction false} AttemptedAtAppend(a: seq<Attempt>, b: seq<Attempt>)
    ensures AttemptedAt(a + b) == AttemptedAt(a) + AttemptedAt(b)
  {
    if a != [] {
      assert (a + b)[0] == a[0] && (a + b)[1..] == a[1..] + b;
      AttemptedAtAppend(a[1..], b);
    } else {
      assert a + b == b;
    }
  }

  lemma {:induction false} SuccessesAppend(a: seq<Attempt>, b: seq<Attempt>)
    ensures Successes(a + b) == Successes(a) + Successes(b)
  {
    if a != [] {
      assert (a + b)[0] == a[0] && (a + b)[1..] == a[1..] + b;
      SuccessesAppend(a[1..], b);
    } else {
      assert a + b == b;
    }
  }

  /** A pass offers exactly the matching descriptions, in list order. */
  lemma {:induction false} SpawnPassOffersMatching(ds: seq<ActorDesc>, w: seq<nat>, drawIndexOf: word -> word,
                                                   spawn: (word, ActorDesc) -> bool, pass: int, numActors: word)
    requires InList(ds, w)
    ensures AttemptedAt(SpawnPass(ds, w, drawIndexOf, spawn, pass, numActors).0) == Matching(ds, w, drawIndexOf, pass)
  {
    if w != [] {
      var d := ds[w[0]];
      var next := if spawn(numActors, d) then Wrap16(numActors + 1) else numActors;
      if drawIndexOf(d.id) == Wrap16(pass) {
        SpawnPassOffersMatching(ds, w[1..], drawIndexOf, spawn, pass, next);
      } else {
        SpawnPassOffersMatching(ds, w[1..], drawIndexOf, spawn, pass, numActors);
        assert SpawnPass(ds, w, drawIndexOf, spawn, pass, numActors) == SpawnPass(ds, w[1..], drawIndexOf, spawn, pass, numActors);
      }
    }
  }

  predicate ReadsDescriptions(ds: seq<ActorDesc>, a: seq<Attempt>)
  {
    forall j :: 0 <= j < |a| ==> a[j].at < |ds| && a[j].desc == ds[a[j].at]
  }

  /** The final gmNumActors: advanced (16-bit) once per successful spawn. */
  predicate CountsSuccesses(r: (seq<Attempt>, word), start: word)
  {
    r.1 == Wrap16(start + Successes(r.0))
  }

  predicate SlotsNumbered(a: seq<Attempt>, start: word)
  {
    forall j :: 0 <= j < |a| ==> a[j].slot == Wrap16(start + Successes(a[..j]))
  }

  /** Each offer carries the description at its index. */
  lemma {:induction false} SpawnPassReadsDescriptions(ds: seq<ActorDesc>, w: seq<nat>, drawIndexOf: word -> word,
                                                      spawn: (word, ActorDesc) -> bool, pass: int, numActors: word)
    requires InList(ds, w)
    ensures ReadsDescriptions(ds, SpawnPass(ds, w, drawIndexOf, spawn, pass, numActors).0)
  {
    if w != [] {
      var d := ds[w[0]];
      var next := if spawn(numActors, d) then Wrap16(numActors + 1) else numActors;
      if drawIndexOf(d.id) == Wrap16(pass) {
        SpawnPassReadsDescriptions(ds, w[1..], drawIndexOf, spawn, pass, next);
        assert SpawnPass(ds, w, drawIndexOf, spawn, pass, numActors).0 ==
               [Attempt(numActors, w[0], d, spawn(numActors, d))] + SpawnPass(ds, w[1..], drawIndexOf, spawn, pass, next).0;
      } else {
        SpawnPassReadsDescriptions(ds, w[1..], drawIndexOf, spawn, pass, numActors);
        assert SpawnPass(ds, w, drawIndexOf, spawn, pass, numActors) == SpawnPass(ds, w[1..], drawIndexOf, spawn, pass, numActors);
      }
    }
  }

  lemma SlotsNumberedCons(x: Attempt, rest: seq<Attempt>, start: word)
    requires x.slot == start
    requires SlotsNumbered(rest, if x.spawned then Wrap16(start + 1) else start)
    ensures SlotsNumbered([x] + rest, start)
  {
    var a := [x] + rest;
    var next := if x.spawned then Wrap16(start + 1) else start;
    forall j | 0 <= j < |a|
      ensures a[j].slot == Wrap16(start + Successes(a[..j]))
    {
      if j == 0 {
        assert a[..j] == [];
      } else {
        assert a[..j] == [x] + rest[..j - 1];
        assert a[..j][1..] == rest[..j - 1];
        var k := Successes(rest[..j - 1]);
        assert Successes(a[..j]) == (if x.spawned then 1 else 0) + k;
        assert a[j] == rest[j - 1];
        assert rest[j - 1].slot == Wrap16(next + k);
        Wrap16Add(start + 1, k);
      }
    }
  }

  /** Each offer is of the slot after the pass's earlier successes. */
  lemma {:induction false} SpawnPassSlots(ds: seq<ActorDesc>, w: seq<nat>, drawIndexOf: word -> word,
                                          spawn: (word, ActorDesc) -> bool, pass: int, numActors: word)
    requires InList(ds, w)
    ensures SlotsNumbered(SpawnPass(ds, w, drawIndexOf, spawn, pass, numActors).0, numActors)
  {
    if w != [] {
      var d := ds[w[0]];
      var ok := spawn(numActors, d);
      var next := if ok then Wrap16(numActors + 1) else numActors;
      if drawIndexOf(d.id) == Wrap16(pass) {
        SpawnPassSlots(ds, w[1..], drawIndexOf, spawn, pass, next);
        var rest := SpawnPass(ds, w[1..], drawIndexOf, spawn, pass, next).0;
        SlotsNumberedCons(Attempt(numActors, w[0], d, ok), rest, numActors);
      } else {
        SpawnPassSlots(ds, w[1..], drawIndexOf, spawn, pass, numActors);
        assert SpawnPass(ds, w, drawIndexOf, spawn, pass, numActors) == SpawnPass(ds, w[1..], drawIndexOf, spawn, pass, numActors);
      }
    }
  }

  /** The count advances once per success of the pass. */
  lemma {:induction false} SpawnPassCounts(ds: seq<ActorDesc>, w: seq<nat>, drawIndexOf: word -> word,
                                           spawn: (word, ActorDesc) -> bool, pass: int, numActors: word)
    requires InList(ds, w)
    ensures var r := SpawnPass(ds, w, drawIndexOf, spawn, pass, numActors);
      r.1 == Wrap16(numActors + Successes(r.0))
  {
    if w != [] {
      var r := SpawnPass(ds, w, drawIndexOf, spawn, pass, numActors);
      var d := ds[w[0]];
      var ok := spawn(numActors, d);
      var next := if ok then Wrap16(numActors + 1) else numActors;
      if drawIndexOf(d.id) == Wrap16(pass) {
        SpawnPassCounts(ds, w[1..], drawIndexOf, spawn, pass, next);
        var rest := SpawnPass(ds, w[1..], drawIndexOf, spawn, pass, next);
        assert r.0 == [Attempt(numActors, w[0], d, ok)] + rest.0;
        assert Successes(r.0) == (if ok then 1 else 0) + Successes(rest.0);
        Wrap16Add(numActors + 1, Successes(rest.0));
      } else {
        SpawnPassCounts(ds, w[1..], drawIndexOf, spawn, pass, numActors);
        assert SpawnPass(ds, w, drawIndexOf, spawn, pass, numActors) == SpawnPass(ds, w[1..], drawIndexOf, spawn, pass, numActors);
      }
    }
  }

  /** SpawnLevelActors: the walk is repeated for draw indices -1 to 3. */
  function SpawnPasses(ds: seq<ActorDesc>, w: seq<nat>, drawIndexOf: word -> word,
                       spawn: (word, ActorDesc) -> bool, pass: int, numActors: word): (r: (seq<Attempt>, word))
    requires -1 <= pass <= 4 && InList(ds, w)
    decreases 4 - pass
  {
    if pass >= 4 then ([], numActors)
    else
      var first := SpawnPass(ds, w, drawIndexOf, spawn, pass, numActors);
      var rest := SpawnPasses(ds, w, drawIndexOf, spawn, pass + 1, first.1);
      (first.0 + rest.0, rest.1)
  }

  function SpawnLevelActors(ds: seq<ActorDesc>, ids: MarkerIds, difficulty: byte,
                            drawIndexOf: word -> word, spawn: (word, ActorDesc) -> bool,
                            numActors: word): (r: (seq<Attempt>, word))
  {
    SpawnPasses(ds, ActorWalk(ds, ids, difficulty, 0), drawIndexOf, spawn, -1, numActors)
  }

  /** The draw indices the passes match: 0xFFFF (pass -1), then 0 to 3. */
  predicate Drawn(drawIndex: word)
  {
    drawIndex == 0xFFFF || drawIndex <= 3
  }

  lemma {:induction false} MatchingCount(ds: seq<ActorDesc>, w: seq<nat>, drawIndexOf: word -> word, pass: int, v: nat)
    requires InList(ds, w)
    requires forall j, l :: 0 <= j < l < |w| ==> w[j] < w[l]
    ensures multiset(Matching(ds, w, drawIndexOf, pass))[v] ==
            if v in w && drawIndexOf(ds[v].id) == Wrap16(pass) then 1 else 0
  {
    if w != [] {
      MatchingCount(ds, w[1..], drawIndexOf, pass, v);
      if v == w[0] {
        assert v !in w[1..];
      }
    }
  }

  /** The pass numbers a draw index is matched by, from `pass` on. */
  predicate MatchedFrom(drawIndex: word, pass: int)
  {
    exists p :: pass <= p < 4 && drawIndex == Wrap16(p)
  }

  lemma MatchedFromStep(drawIndex: word, pass: int)
    requires -1 <= pass < 4
    ensures MatchedFrom(drawIndex, pass) <==> drawIndex == Wrap16(pass) || MatchedFrom(drawIndex, pass + 1)
    ensures drawIndex == Wrap16(pass) ==> !MatchedFrom(drawIndex, pass + 1)
  {
    forall p | pass + 1 <= p < 4
      ensures Wrap16(p) != Wrap16(pass)
    {
    }
    if MatchedFrom(drawIndex, pass) && drawIndex != Wrap16(pass) {
      var p :| pass <= p < 4 && drawIndex == Wrap16(p);
      assert p != pass;
    }
  }

  lemma {:induction false} SpawnPassesOffers(ds: seq<ActorDesc>, w: seq<nat>, drawIndexOf: word -> word,
                                             spawn: (word, ActorDesc) -> bool, pass: int, numActors: word, v: nat)
    requires -1 <= pass <= 4 && InList(ds, w)
    requires forall j, l :: 0 <= j < l < |w| ==> w[j] < w[l]
    ensures multiset(AttemptedAt(SpawnPasses(ds, w, drawIndexOf, spawn, pass, numActors).0))[v] ==
            if v in w && MatchedFrom(drawIndexOf(ds[v].id), pass) then 1 else 0
    decreases 4 - pass
  {
    if pass < 4 {
      var first := SpawnPass(ds, w, drawIndexOf, spawn, pass, numActors);
      var rest := SpawnPasses(ds, w, drawIndexOf, spawn, pass + 1, first.1);
      assert SpawnPasses(ds, w, drawIndexOf, spawn, pass, numActors).0 == first.0 + rest.0;
      SpawnPassesOffers(ds, w, drawIndexOf, spawn, pass + 1, first.1, v);
      SpawnPassOffersMatching(ds, w, drawIndexOf, spawn, pass, numActors);
      MatchingCount(ds, w, drawIndexOf, pass, v);
      AttemptedAtAppend(first.0, rest.0);
      var c1 := multiset(AttemptedAt(first.0))[v];
      var c2 := multiset(AttemptedAt(rest.0))[v];
      assert multiset(AttemptedAt(first.0 + rest.0))[v] == c1 + c2;
      if v in w {
        MatchedFromStep(drawIndexOf(ds[v].id), pass);
      }
    }
  }

  /** Counting across two runs of attempts: the counter carried from the
      first run into the second ends where one count over both would. */
  lemma CountsAcross(numActors: word, a: seq<Attempt>, b: seq<Attempt>, mid: word, end: word)
    requires mid == Wrap16(numActors + Successes(a)) && end == Wrap16(mid + Successes(b))
    ensures CountsSuccesses((a + b, end), numActors)
  {
    SuccessesAppend(a, b);
    Wrap16Add(numActors + Successes(a), Successes(b));
  }

  lemma {:induction false} SpawnPassesCount(ds: seq<ActorDesc>, w: seq<nat>, drawIndexOf: word -> word,
                                            spawn: (word, ActorDesc) -> bool, pass: int, numActors: word)
    requires -1 <= pass <= 4 && InList(ds, w)
    ensures CountsSuccesses(SpawnPasses(ds, w, drawIndexOf, spawn, pass, numActors), numActors)
    decreases 4 - pass
  {
    if pass < 4 {
      var first := SpawnPass(ds, w, drawIndexOf, spawn, pass, numActors);
      var rest := SpawnPasses(ds, w, drawIndexOf, spawn, pass + 1, first.1);
      assert SpawnPasses(ds, w, drawIndexOf, spawn, pass, numActors) == (first.0 + rest.0, rest.1);
      SpawnPassCounts(ds, w, drawIndexOf, spawn, pass, numActors);
      SpawnPassesCount(ds, w, drawIndexOf, spawn, pass + 1, first.1);
      CountsAcross(numActors, first.0, rest.0, first.1, rest.1);
    } else {
      assert SpawnPasses(ds, w, drawIndexOf, spawn, pass, numActors) == ([], numActors);
      assert Wrap16(numActors + Successes([])) == numActors;
    }
  }

  lemma DrawnIsMatched(di: word)
    ensures Drawn(di) <==> MatchedFrom(di, -1)
  {
    assert Wrap16(-1) == 0xFFFF;
    if Drawn(di) {
      var p := if di == 0xFFFF then -1 else di;
      assert -1 <= p < 4 && di == Wrap16(p);
    }
    if MatchedFrom(di, -1) {
      var p :| -1 <= p < 4 && di == Wrap16(p);
      assert p == -1 || Wrap16(p) == p;
    }
  }

  /** Every description the walk visits is offered a slot exactly once if
      its draw index is 0xFFFF or 0 to 3, and never otherwise, so a
      marker-hidden description is never offered; gmNumActors ends up
      advanced once per successful spawn. */
  lemma SpawnLevelActorsSpec(ds: seq<ActorDesc>, ids: MarkerIds, difficulty: byte,
                             drawIndexOf: word -> word, spawn: (word, ActorDesc) -> bool,
                             numActors: word, v: nat)
    ensures var r := SpawnLevelActors(ds, ids, difficulty, drawIndexOf, spawn, numActors);
      multiset(AttemptedAt(r.0))[v] ==
        (if v in ActorWalk(ds, ids, difficulty, 0) && Drawn(drawIndexOf(ds[v].id)) then 1 else 0) &&
      CountsSuccesses(r, numActors)
  {
    var w := ActorWalk(ds, ids, difficulty, 0);
    assert SpawnLevelActors(ds, ids, difficulty, drawIndexOf, spawn, numActors) ==
           SpawnPasses(ds, w, drawIndexOf, spawn, -1, numActors);
    SpawnPassesOffers(ds, w, drawIndexOf, spawn, -1, numActors, v);
    SpawnPassesCount(ds, w, drawIndexOf, spawn, -1, numActors);
    if v in w {
      DrawnIsMatched(drawIndexOf(ds[v].id));
    }
  }

  // ---------------------------------------------------------------------
  // CenterViewOnPlayer
  // ---------------------------------------------------------------------

  const VIEWPORT_WIDTH: nat := 32
  const VIEWPORT_HEIGHT: nat := 20

  /** One axis of CenterViewOnPlayer: the position minus an offset, set to 0
      when the word reads as negative in a signed comparison, else capped. */
  function ClampAxis(pos: word, offset: nat, limit: word): (cam: word)
    ensures cam == 0 || cam <= limit || cam == Wrap16(pos - offset)
  {
    var cam := Wrap16(pos - offset);
    if AsSigned(cam) < 0 then 0 else if cam > limit then limit else cam
  }

  /** CenterViewOnPlayer: the camera position for a player position. */
  function CenterViewOnPlayer(plPosX: word, plPosY: word, mapWidth: word, mapBottom: word): (cam: (word, word))
  {
    (ClampAxis(plPosX, VIEWPORT_WIDTH / 2 - 1, Wrap16(mapWidth - VIEWPORT_WIDTH)),
     ClampAxis(plPosY, VIEWPORT_HEIGHT - 1, Wrap16(mapBottom - (VIEWPORT_HEIGHT + 1))))
  }

  function Clamp(v: int, lo: int, hi: int): int
  {
    if v < lo then lo else if v > hi then hi else v
  }

  /** On any real map (at least a viewport wide and tall, positions below
      0x8000) the camera is the integer clamp of plPosX - 15 to
      [0, mapWidth - 32] and of plPosY - 19 to [0, mapBottom - 21]. */
  lemma CenterViewIsClamp(plPosX: word, plPosY: word, mapWidth: word, mapBottom: word)
    requires mapWidth >= VIEWPORT_WIDTH && mapBottom >= VIEWPORT_HEIGHT + 1
    requires plPosX < 0x8000 && plPosY < 0x8000
    ensures CenterViewOnPlayer(plPosX, plPosY, mapWidth, mapBottom) ==
            (Clamp(plPosX - 15, 0, mapWidth - 32), Clamp(plPosY - 19, 0, mapBottom - 21))
  {
  }

  /** The player ends up on screen: column plPosX is within the 32 camera
      columns, and row plPosY within the 20 rows (for a player standing at
      least two rows above the map bottom). */
  lemma CenterViewShowsPlayer(plPosX: word, plPosY: word, mapWidth: word, mapBottom: word)
    requires mapWidth >= VIEWPORT_WIDTH && mapBottom >= VIEWPORT_HEIGHT + 1 && mapBottom < 0x8000
    requires plPosX < mapWidth && mapWidth < 0x8000 && plPosY + 2 <= mapBottom
    ensures var cam := CenterViewOnPlayer(plPosX, plPosY, mapWidth, mapBottom);
      cam.0 <= plPosX < cam.0 + VIEWPORT_WIDTH && cam.1 <= plPosY < cam.1 + VIEWPORT_HEIGHT
  {
    CenterViewIsClamp(plPosX, plPosY, mapWidth, mapBottom);
  }

  // ---------------------------------------------------------------------
  // DamagePlayer
  // ---------------------------------------------------------------------

  const PS_NORMAL: byte := 0
  const PS_DYING: byte := 5
  const PS_USING_SHIP: byte := 9
  const PLAYER_MAX_HEALTH: word := 9

  /** The player variables DamagePlayer reads and writes. */
  datatype Player = Player(health: word, state: byte, mercyFramesLeft: byte, cloakTimeLeft: word,
                           deathAnimationStep: byte, killedInShip: bool, tookDamage: bool)

  /** The sound DamagePlayer plays. */
  datatype DamageSound = NoSound | PainSound | DeathSound

  /** DamagePlayer: nothing in cheat mode, while cloaked, during mercy frames
      or while dying; otherwise one unit of health goes, and the player either
      gets mercy frames (health still 1 to 11) or starts dying. */
  function DamagePlayer(p: Player, tecMode: bool, difficulty: byte): (r: (Player, DamageSound))
  {
    if tecMode then (p, NoSound)
    else if p.cloakTimeLeft != 0 || p.mercyFramesLeft != 0 || p.state == PS_DYING then (p, NoSound)
    else
      var health := Wrap16(p.health - 1);
      var hurt := p.(health := health, tookDamage := true);
      if 0 < health < 12 then
        (hurt.(mercyFramesLeft := Wrap8(50 - difficulty * 10)), PainSound)
      else
        (hurt.(killedInShip := hurt.killedInShip || p.state == PS_USING_SHIP,
               state := PS_DYING, deathAnimationStep := 0), DeathSound)
  }

  /** The player can be hurt. */
  predicate Vulnerable(p: Player, tecMode: bool)
  {
    !tecMode && p.cloakTimeLeft == 0 && p.mercyFramesLeft == 0 && p.state != PS_DYING
  }

  /** The player is changed exactly when vulnerable. A hit takes one unit of
      health and records the damage; a player left with 1 to 11 health gets
      40, 30 or 20 mercy frames on easy, medium or hard and keeps the state;
      any other result (including health 0, and a health of 0 wrapping round)
      starts the death sequence, noting a death in the ship. */
  lemma DamagePlayerSpec(p: Player, tecMode: bool, difficulty: byte)
    requires DIFFICULTY_EASY <= difficulty <= DIFFICULTY_HARD
    ensures var (p', sound) := DamagePlayer(p, tecMode, difficulty);
      (!Vulnerable(p, tecMode) <==> p' == p && sound == NoSound) &&
      (Vulnerable(p, tecMode) ==>
        p'.health == (if p.health == 0 then 0xFFFF else p.health - 1) && p'.tookDamage &&
        p'.cloakTimeLeft == p.cloakTimeLeft &&
        (2 <= p.health <= 12 ==>
           sound == PainSound && p'.state == p.state && p'.mercyFramesLeft == 50 - 10 * difficulty &&
           p'.mercyFramesLeft > 0) &&
        (!(2 <= p.health <= 12) ==>
           sound == DeathSound && p'.state == PS_DYING && p'.deathAnimationStep == 0 &&
           p'.killedInShip == (p.killedInShip || p.state == PS_USING_SHIP)))
  {
  }

  /** Mercy frames make the player immune: a hit that leaves health is
      followed, on the very next call, by nothing at all. */
  lemma NoDamageDuringMercyFrames(p: Player, tecMode: bool, difficulty: byte)
    requires DIFFICULTY_EASY <= difficulty <= DIFFICULTY_HARD
    requires Vulnerable(p, tecMode) && 2 <= p.health <= 12
    ensures var p1 := DamagePlayer(p, tecMode, difficulty).0;
      DamagePlayer(p1, tecMode, difficulty) == (p1, NoSound)
  {
  }

  /** The number of hits, with the mercy frames run out in between each,
      until the death sequence starts. */
  function HitsUntilDeath(p: Player, difficulty: byte, fuel: nat): (n: nat)
    decreases fuel
  {
    if fuel == 0 then 0
    else
      var (p', sound) := DamagePlayer(p, false, difficulty);
      if sound == DeathSound then 1
      else if sound == NoSound then 0
      else 1 + HitsUntilDeath(p'.(mercyFramesLeft := 0), difficulty, fuel - 1)
  }

  lemma {:induction false} HitsUntilDeathCounts(p: Player, difficulty: byte, fuel: nat)
    requires DIFFICULTY_EASY <= difficulty <= DIFFICULTY_HARD
    requires Vulnerable(p, false) && 1 <= p.health <= 12 && fuel >= p.health
    ensures HitsUntilDeath(p, difficulty, fuel) == p.health
    decreases fuel
  {
    DamagePlayerSpec(p, false, difficulty);
    if p.health >= 2 {
      var p' := DamagePlayer(p, false, difficulty).0;
      HitsUntilDeathCounts(p'.(mercyFramesLeft := 0), difficulty, fuel - 1);
    }
  }

  /** From full health it takes exactly PLAYER_MAX_HEALTH hits. */
  lemma FullHealthTakesNineHits(p: Player, difficulty: byte)
    requires DIFFICULTY_EASY <= difficulty <= DIFFICULTY_HARD
    requires Vulnerable(p, false) && p.health == PLAYER_MAX_HEALTH
    ensures HitsUntilDeath(p, difficulty, PLAYER_MAX_HEALTH) == PLAYER_MAX_HEALTH
  {
    HitsUntilDeathCounts(p, difficulty, PLAYER_MAX_HEALTH);
  }

  // ---------------------------------------------------------------------
  // ResetGameState
  // ---------------------------------------------------------------------

  const MAX_NUM_MOVING_MAP_PARTS: nat := 70
  const INITIAL_MERCY_FRAMES: byte := 20
  const GS_RUNNING: byte := 0

  /** The state reset at every (re)start of a level. */
  datatype Transient = Transient(
    gameState: byte, bossActivated: bool, showingHintMachineMsg: bool, bodyExplosionStep: word,
    attachedSpiders: (word, word, word), hudMessageCharsPrinted: word, hudMessageDelay: word,
    onElevator: bool, flashScreen: bool, killedInShip: bool,
    bdAddress: word, bdAutoScrollStep: word, currentDisplayPage: word, rngIndex: byte,
    animationFrame: byte, playerState: byte, mercyFramesLeft: byte, isTeleporting: bool,
    explodingSectionTicksElapsed: word, interactAnimTicks: word, blockLookingUp: bool,
    earthquakeCountdown: word, earthquakeThreshold: word)

  const TRANSIENT_START := Transient(
    GS_RUNNING, false, false, 0, (0, 0, 0), 0, 0, false, false, false,
    0x4000, 0, 1, 0, 0, PS_NORMAL, INITIAL_MERCY_FRAMES, false, 0, 0, false, 0, 0)

  /** The progress through a level, which a respawn at an activated beacon
      keeps. */
  datatype Progress = Progress(
    tookDamage: bool, numMovingMapParts: byte, movingMapPartTypes: seq<word>,
    requestUnlockNextDoor: bool, airlockDeathStep: byte, requestUnlockNextForceField: bool,
    waterAreasPresent: bool, radarDishesLeft: byte, collectedLetters: int,
    rapidFireTimeLeft: word, reactorDestructionStep: byte, bdAddressAdjust: word,
    cloakTimeLeft: word, bonusCounters: seq<word>, weaponHud: byte, numActors: word,
    health: word, inventory: Inventory.Inv, orbsLeft: word, bombBoxesLeft: word)

  /** The cameras, weapons, merchandise and turrets destroyed or collected,
      and how many of each the level has. */
  const NUM_BONUS_COUNTERS: nat := 8

  predicate ValidProgress(p: Progress)
  {
    |p.movingMapPartTypes| == MAX_NUM_MOVING_MAP_PARTS && |p.bonusCounters| == NUM_BONUS_COUNTERS &&
    Inventory.Valid(p.inventory)
  }

  /** The progress of a level just started: no damage, no moving map parts,
      no letters, power-ups or counters, no actors, full health and an empty
      inventory. */
  predicate FreshProgress(p: Progress)
  {
    ValidProgress(p) &&
    !p.tookDamage && p.numMovingMapParts == 0 &&
    (forall i :: 0 <= i < |p.movingMapPartTypes| ==> p.movingMapPartTypes[i] == 0) &&
    !p.requestUnlockNextDoor && p.airlockDeathStep == 0 && !p.requestUnlockNextForceField &&
    !p.waterAreasPresent && p.radarDishesLeft == 0 && p.collectedLetters == 0 &&
    p.rapidFireTimeLeft == 0 && p.reactorDestructionStep == 0 && p.bdAddressAdjust == 0 &&
    p.cloakTimeLeft == 0 && (forall i :: 0 <= i < |p.bonusCounters| ==> p.bonusCounters[i] == 0) &&
    p.weaponHud == 0 && p.numActors == 0 && p.health == PLAYER_MAX_HEALTH &&
    Inventory.Items(p.inventory) == [] && p.orbsLeft == 0 && p.bombBoxesLeft == 0
  }

  datatype GameSession = GameSession(
    transient: Transient, effects: seq<Pools.EffectState>, shots: seq<Pools.PlayerShot>,
    beaconActivated: bool, progress: Progress)

  /** ResetGameState: the transient state, effects and shots are always
      reset; the level progress only when no beacon has been activated. */
  method ResetGameState(g: GameSession) returns (g': GameSession)
    requires |g.effects| == Pools.MAX_NUM_EFFECTS && |g.shots| == Pools.MAX_NUM_PLAYER_SHOTS
    requires ValidProgress(g.progress)
    ensures g'.transient == TRANSIENT_START && g'.beaconActivated == g.beaconActivated
    ensures |g'.effects| == |g.effects| && forall i :: 0 <= i < |g'.effects| ==> g'.effects[i].active == 0
    ensures |g'.shots| == |g.shots| && forall i :: 0 <= i < |g'.shots| ==> g'.shots[i].active == 0
    ensures g.beaconActivated ==> g'.progress == g.progress
    ensures !g.beaconActivated ==> FreshProgress(g'.progress)
    ensures !g.beaconActivated ==>
              g'.progress.inventory.items[1..] == g.progress.inventory.items[1..] &&
              g'.progress.inventory.blink == g.progress.inventory.blink
  {
    var effects, shots := Pools.ResetEffectsAndPlayerShots(g.effects, g.shots);
    var progress := g.progress;
    if !g.beaconActivated {
      var types := progress.movingMapPartTypes;
      var i := 0;
      while i < MAX_NUM_MOVING_MAP_PARTS
        invariant 0 <= i <= MAX_NUM_MOVING_MAP_PARTS && |types| == MAX_NUM_MOVING_MAP_PARTS
        invariant forall k :: 0 <= k < i ==> types[k] == 0
      {
        types := types[i := 0];
        i := i + 1;
      }
      progress := Progress(
        false, 0, types, false, 0, false, false, 0, 0, 0, 0, 0, 0,
        seq(NUM_BONUS_COUNTERS, _ => 0), 0, 0, PLAYER_MAX_HEALTH,
        Inventory.ClearInventory(progress.inventory), 0, 0);
    }
    g' := GameSession(TRANSIENT_START, effects, shots, g.beaconActivated, progress);
  }
}
