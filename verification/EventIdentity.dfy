/** relayer/handlers.go: how the hub rewrites an EVENT before it stores it (tags, new id),
    and how it re-verifies and re-hashes a stored event before it sends it to a REQ. */
module EventIdentity {
  import Hex
  import opened Prelude
  import opened Nostr
  import opened HashUtil

  // ---------- EVENT: media URLs, the hash tag, the new id ----------

  predicate TagStartsWith(tag: Tag, prefix: Tag)
    requires prefix != []
  {
    && |prefix| <= |tag|
    && prefix[..|prefix| - 1] == tag[..|prefix| - 1]
    && prefix[|prefix| - 1] <= tag[|prefix| - 1]
  }

  /** go-nostr's Tags.AppendUnique: the first two elements decide, the second by prefix. */
  function AppendUnique(tags: seq<Tag>, tag: Tag): seq<Tag>
    requires |tag| >= 2
  {
    if exists t :: t in tags && TagStartsWith(t, tag[..2]) then tags else tags + [tag]
  }

  predicate IsAudio(tag: Tag)
  {
    |tag| == 2 && tag[0] == "audio"
  }

  predicate Mentions(tag: Tag)
  {
    |tag| >= 2 && (tag[0] == "p" || tag[0] == "e")
  }

  /** uploads gives, for each tag, the URL the media store answered, or None when a fetch or
      an upload failed. */
  function Replaced(tags: seq<Tag>, uploads: seq<Option<string>>): (r: seq<Tag>)
    requires |uploads| == |tags|
  {
    seq(|tags|, i requires 0 <= i < |tags| =>
      if IsAudio(tags[i]) && uploads[i].Some? then tags[i][1 := uploads[i].value] else tags[i])
  }

  predicate AnyReplaced(tags: seq<Tag>, uploads: seq<Option<string>>)
    requires |uploads| == |tags|
  {
    exists i :: 0 <= i < |tags| && IsAudio(tags[i]) && uploads[i].Some?
  }

  /** The hub's settings that matter here: a media store, and the signing key. */
  datatype Hub = Hub(crypto: Crypto, hasMedia: bool, hasKey: bool)

  function MediaTags(h: Hub, e: Event, uploads: seq<Option<string>>): seq<Tag>
    requires |uploads| == |e.tags|
  {
    if e.kind == KIND_TEXT_NOTE && h.hasMedia then Replaced(e.tags, uploads) else e.tags
  }

  predicate Changed(h: Hub, e: Event, uploads: seq<Option<string>>)
    requires |uploads| == |e.tags|
  {
    || (e.kind == KIND_TEXT_NOTE && h.hasMedia && AnyReplaced(e.tags, uploads))
    || exists t :: t in e.tags && Mentions(t)
  }

  predicate HashAdded(h: Hub, e: Event, uploads: seq<Option<string>>)
    requires |uploads| == |e.tags|
  {
    && e.kind == KIND_TEXT_NOTE && h.hasKey && (Changed(h, e, uploads) || e.tags == [])
    && GetSing(h.crypto, e.content).Some?
  }

  function HashTag(signature: string): Tag
  {
    ["hash", signature, "true"]
  }

  /** The event the hub stores, acknowledges and pushes to listeners. */
  function Rewritten(h: Hub, e: Event, uploads: seq<Option<string>>): Event
    requires |uploads| == |e.tags|
  {
    var media := MediaTags(h, e, uploads);
    var tags := if HashAdded(h, e, uploads) then AppendUnique(media, HashTag(GetSing(h.crypto, e.content).value))
                else media;
    var evt := e.(tags := tags);
    if Changed(h, e, uploads) || HashAdded(h, e, uploads) then evt.(id := IdOf(h.crypto, evt)) else evt
  }

  /** The loop over the audio tags of a text note. */
  method ReplaceMedia(e: Event, uploads: seq<Option<string>>) returns (tags: seq<Tag>, changed: bool)
    requires |uploads| == |e.tags|
    ensures tags == Replaced(e.tags, uploads) && changed == AnyReplaced(e.tags, uploads)
  {
    tags, changed := e.tags, false;
    for i := 0 to |e.tags|
      invariant |tags| == |e.tags|
      invariant forall j :: 0 <= j < i ==> tags[j] == Replaced(e.tags, uploads)[j]
      invariant forall j :: i <= j < |tags| ==> tags[j] == e.tags[j]
      invariant changed <==> exists j :: 0 <= j < i && IsAudio(e.tags[j]) && uploads[j].Some?
    {
      var tag := tags[i];
      if |tag| != 2 {
        continue;
      }
      if tag[0] != "audio" {
        continue;
      }
      if uploads[i].None? {
        continue;
      }
      tags := tags[i := tag[1 := uploads[i].value]];
      changed := true;
    }
  }

  /** The loop that looks for a "p" or "e" tag. */
  method AnyMention(tags: seq<Tag>) returns (found: bool)
    ensures found <==> exists i :: 0 <= i < |tags| && Mentions(tags[i])
  {
    found := false;
    for i := 0 to |tags|
      invariant found <==> exists j :: 0 <= j < i && Mentions(tags[j])
    {
      if |tags[i]| >= 2 {
        if tags[i][0] == "p" || tags[i][0] == "e" {
          found := true;
        }
      }
    }
  }

  /** The part of the EVENT branch between the signature check and SendEvent. */
  method RewriteEvent(h: Hub, e: Event, uploads: seq<Option<string>>) returns (evt: Event)
    requires |uploads| == |e.tags|
    ensures evt == Rewritten(h, e, uploads)
    ensures RewrittenAs(h, e, uploads, evt)
  {
    var tags := e.tags;
    var isEvtChanged := false;
    if e.kind == KIND_TEXT_NOTE && h.hasMedia {
      tags, isEvtChanged := ReplaceMedia(e, uploads);
    }
    var mentions := AnyMention(tags);
    MediaKeepsMentions(h, e, uploads);
    isEvtChanged := isEvtChanged || mentions;
    var isHashAdded := false;
    if e.kind == KIND_TEXT_NOTE && h.hasKey && (isEvtChanged || |tags| == 0) {
      var sig := GetSing(h.crypto, e.content);
      if sig.Some? {
        tags := AppendUnique(tags, ["hash", sig.value, "true"]);
        isHashAdded := true;
      }
    }
    evt := e.(tags := tags);
    if isEvtChanged || isHashAdded {
      var p := StringifyEvent(evt);
      evt := evt.(id := Hex.Encode(h.crypto.sha256(p)));
    }
    RewrittenIsAs(h, e, uploads);
  }

  lemma MediaKeepsMentions(h: Hub, e: Event, uploads: seq<Option<string>>)
    requires |uploads| == |e.tags|
    ensures var tags := MediaTags(h, e, uploads);
            && |tags| == |e.tags|
            && (forall i :: 0 <= i < |tags| ==> (Mentions(tags[i]) <==> Mentions(e.tags[i])))
            && ((exists i :: 0 <= i < |tags| && Mentions(tags[i])) <==> exists t :: t in e.tags && Mentions(t))
  {
  }

  /** What leaves the hub is either the event as it came or carries the hash of exactly what
      it shows; pubkey, time, kind, content and signature are never touched. */
  lemma RewrittenIsConsistent(h: Hub, e: Event, uploads: seq<Option<string>>)
    requires |uploads| == |e.tags|
    ensures var evt := Rewritten(h, e, uploads);
            && (evt == e || evt.id == IdOf(h.crypto, evt))
            && evt == e.(tags := evt.tags, id := evt.id)
  {
  }

  /** Position by position: only the URL of an audio tag of a text note can change, one tag at
      most is added and it is the hub's hash tag, and without a "p" or "e" tag an event of any
      other kind goes through as it came. */
  lemma RewrittenTags(h: Hub, e: Event, uploads: seq<Option<string>>)
    requires |uploads| == |e.tags|
    ensures var tags := Rewritten(h, e, uploads).tags;
            && |e.tags| <= |tags| <= |e.tags| + 1
            && (forall i :: 0 <= i < |e.tags| ==>
                  || tags[i] == e.tags[i]
                  || (e.kind == KIND_TEXT_NOTE && h.hasMedia && IsAudio(e.tags[i]) && uploads[i].Some?
                      && tags[i] == ["audio", uploads[i].value]))
            && (|tags| > |e.tags| ==>
                  && e.kind == KIND_TEXT_NOTE && h.hasKey && GetSing(h.crypto, e.content).Some?
                  && tags[|e.tags|] == ["hash", GetSing(h.crypto, e.content).value, "true"])
    ensures e.kind != KIND_TEXT_NOTE && (forall t :: t in e.tags ==> !Mentions(t)) ==> Rewritten(h, e, uploads) == e
  {
  }

  /** A tag of two or more elements named "p" or "e". */
  predicate NamesSomeone(e: Event)
  {
    exists t :: t in e.tags && |t| >= 2 && (t[0] == "p" || t[0] == "e")
  }

  /** The URL the media store answered for a tag that is an audio tag of a text note. */
  predicate Uploaded(h: Hub, e: Event, uploads: seq<Option<string>>, i: nat)
    requires |uploads| == |e.tags| && i < |e.tags|
  {
    e.kind == 1 && h.hasMedia && |e.tags[i]| == 2 && e.tags[i][0] == "audio" && uploads[i].Some?
  }

  predicate AnyUploaded(h: Hub, e: Event, uploads: seq<Option<string>>)
    requires |uploads| == |e.tags|
  {
    exists i :: 0 <= i < |e.tags| && Uploaded(h, e, uploads, i)
  }

  /** Whether the hub has something to put into a hash tag, and why. */
  predicate HubTags(h: Hub, e: Event, uploads: seq<Option<string>>)
    requires |uploads| == |e.tags|
  {
    && e.kind == 1 && h.hasKey && h.crypto.sign(h.crypto.sha256(e.content)).Some?
    && (e.tags == [] || NamesSomeone(e) || AnyUploaded(h, e, uploads))
  }

  predicate BeginsWithHash(tag: Tag, signature: string)
  {
    |tag| >= 2 && tag[0] == "hash" && signature <= tag[1]
  }

  /** Everything the EVENT branch does to an event. The URL of an audio tag is the uploaded one
      exactly when there is an upload; the hub's hash tag comes at the end exactly when the hub
      tags the note and no tag begins with "hash" and its signature; the id is computed anew
      exactly when the event names someone, a URL was replaced, or the hub tags the note. */
  ghost predicate RewrittenAs(h: Hub, e: Event, uploads: seq<Option<string>>, evt: Event)
    requires |uploads| == |e.tags|
  {
    var n := |e.tags|;
    && |evt.tags| >= n
    && (forall i :: 0 <= i < n ==>
          evt.tags[i] == if Uploaded(h, e, uploads, i) then ["audio", uploads[i].value] else e.tags[i])
    && (HubTags(h, e, uploads) ==>
          var signature := "0x" + Hex.Encode(h.crypto.sign(h.crypto.sha256(e.content)).value);
          evt.tags[n..] == if exists t :: t in e.tags && BeginsWithHash(t, signature) then []
                           else [["hash", signature, "true"]])
    && (!HubTags(h, e, uploads) ==> evt.tags[n..] == [])
    && evt == e.(tags := evt.tags,
                 id := if NamesSomeone(e) || AnyUploaded(h, e, uploads) || HubTags(h, e, uploads)
                       then IdOf(h.crypto, evt) else e.id)
  }

  lemma ChangedMeans(h: Hub, e: Event, uploads: seq<Option<string>>)
    requires |uploads| == |e.tags|
    ensures Changed(h, e, uploads) <==> NamesSomeone(e) || AnyUploaded(h, e, uploads)
    ensures HashAdded(h, e, uploads) <==> HubTags(h, e, uploads)
  {
    if AnyUploaded(h, e, uploads) {
      var i :| 0 <= i < |e.tags| && Uploaded(h, e, uploads, i);
      assert IsAudio(e.tags[i]);
    }
    if i :| 0 <= i < |e.tags| && h.hasMedia && e.kind == 1 && IsAudio(e.tags[i]) && uploads[i].Some? {
      assert Uploaded(h, e, uploads, i);
    }
    if t :| t in e.tags && Mentions(t) {
      assert NamesSomeone(e);
    }
    if NamesSomeone(e) {
      var t :| t in e.tags && |t| >= 2 && (t[0] == "p" || t[0] == "e");
      assert Mentions(t);
    }
  }

  lemma MediaMeans(h: Hub, e: Event, uploads: seq<Option<string>>, i: nat)
    requires |uploads| == |e.tags| && i < |e.tags|
    ensures |MediaTags(h, e, uploads)| == |e.tags|
    ensures MediaTags(h, e, uploads)[i] ==
            if Uploaded(h, e, uploads, i) then ["audio", uploads[i].value] else e.tags[i]
  {
  }

  lemma StartsMeans(t: Tag, signature: string)
    ensures TagStartsWith(t, HashTag(signature)[..2]) <==> BeginsWithHash(t, signature)
  {
    assert HashTag(signature)[..2] == ["hash", signature];
    assert ["hash", signature][..1] == ["hash"];
    if |t| >= 2 {
      assert t[..1] == [t[0]];
    }
  }

  /** A tag that begins with "hash" is no audio tag, so it is there before and after. */
  lemma HashTagsStay(h: Hub, e: Event, uploads: seq<Option<string>>, signature: string)
    requires |uploads| == |e.tags|
    ensures (exists t :: t in MediaTags(h, e, uploads) && TagStartsWith(t, HashTag(signature)[..2])) <==>
            (exists t :: t in e.tags && BeginsWithHash(t, signature))
  {
    var media := MediaTags(h, e, uploads);
    if t :| t in media && TagStartsWith(t, HashTag(signature)[..2]) {
      StartsMeans(t, signature);
      var i :| 0 <= i < |media| && media[i] == t;
      MediaMeans(h, e, uploads, i);
      assert e.tags[i] in e.tags && BeginsWithHash(e.tags[i], signature);
    }
    if t :| t in e.tags && BeginsWithHash(t, signature) {
      StartsMeans(t, signature);
      var i :| 0 <= i < |e.tags| && e.tags[i] == t;
      MediaMeans(h, e, uploads, i);
      assert media[i] in media;
    }
  }

  lemma RewrittenTagsAs(h: Hub, e: Event, uploads: seq<Option<string>>)
    requires |uploads| == |e.tags|
    ensures var tags, media := Rewritten(h, e, uploads).tags, MediaTags(h, e, uploads);
            && |media| == |e.tags| && |tags| >= |media| && tags[..|media|] == media
            && (!HubTags(h, e, uploads) ==> tags[|media|..] == [])
            && (HubTags(h, e, uploads) ==>
                  var signature := GetSing(h.crypto, e.content).value;
                  tags[|media|..] == if exists t :: t in e.tags && BeginsWithHash(t, signature) then []
                                     else [["hash", signature, "true"]])
  {
    ChangedMeans(h, e, uploads);
    if HubTags(h, e, uploads) {
      HashTagsStay(h, e, uploads, GetSing(h.crypto, e.content).value);
    }
  }

  lemma RewrittenIsAs(h: Hub, e: Event, uploads: seq<Option<string>>)
    requires |uploads| == |e.tags|
    ensures RewrittenAs(h, e, uploads, Rewritten(h, e, uploads))
  {
    var evt, media, n := Rewritten(h, e, uploads), MediaTags(h, e, uploads), |e.tags|;
    RewrittenTagsAs(h, e, uploads);
    forall i | 0 <= i < n
      ensures evt.tags[i] == if Uploaded(h, e, uploads, i) then ["audio", uploads[i].value] else e.tags[i]
    {
      MediaMeans(h, e, uploads, i);
      assert evt.tags[i] == evt.tags[..n][i];
    }
    ChangedMeans(h, e, uploads);
  }

  // ---------- REQ: verification on the way out ----------

  function FormatBool(b: bool): string
  {
    if b then "true" else "false"
  }

  predicate IsHashTag(tag: Tag)
  {
    |tag| >= 2 && tag[0] == "hash"
  }

  function VerdictOf(c: Crypto, content: string, tag: Tag): Verdict
    requires IsHashTag(tag)
  {
    GetVerification(c, tag[1], content)
  }

  predicate Verified(c: Crypto, content: string, tag: Tag)
  {
    IsHashTag(tag) && VerdictOf(c, content, tag).Checked?
  }

  /** A panic on this tag, which nothing recovers, so the process ends: the loop writes to the
      third element of a two-element tag, or the signature decodes to no bytes. */
  predicate Panics(c: Crypto, content: string, tag: Tag)
  {
    IsHashTag(tag) && (VerdictOf(c, content, tag).Crash? || (Verified(c, content, tag) && |tag| == 2))
  }

  function Touched(c: Crypto, content: string, tag: Tag): Tag
  {
    if Verified(c, content, tag) && |tag| >= 3 then tag[2 := FormatBool(VerdictOf(c, content, tag).ok)] else tag
  }

  function AllTouched(c: Crypto, content: string, tags: seq<Tag>): seq<Tag>
  {
    seq(|tags|, i requires 0 <= i < |tags| => Touched(c, content, tags[i]))
  }

  predicate AnyVerified(c: Crypto, content: string, tags: seq<Tag>)
  {
    exists t :: t in tags && Verified(c, content, t)
  }

  predicate AnyPanics(c: Crypto, content: string, tags: seq<Tag>)
  {
    exists t :: t in tags && Panics(c, content, t)
  }

  predicate Examined(h: Hub, e: Event)
  {
    e.kind == KIND_TEXT_NOTE && h.hasKey
  }

  /** The event a REQ is sent: every verdict written into its tag, and the id recomputed from
      the tags as sent if there was any verdict at all. */
  function Delivered(h: Hub, e: Event): Event
  {
    if !Examined(h, e) then e
    else
      var sent := e.(tags := AllTouched(h.crypto, e.content, e.tags));
      if AnyVerified(h.crypto, e.content, e.tags) then sent.(id := IdOf(h.crypto, sent)) else sent
  }

  /** The signature a tag carries, as bytes. */
  function Carried(tag: Tag): Option<seq<Hex.byte>>
  {
    if |tag| >= 2 && tag[0] == "hash" then Hex.Decode0x(tag[1]) else None
  }

  /** The verdicts on a note's tags: a tag that carries a signature says "true" afterwards if
      verification accepts the signature, without its last byte, for the content's digest, and
      "false" if not; every other tag is as before. */
  ghost predicate FlagsWritten(c: Crypto, content: string, before: seq<Tag>, after: seq<Tag>)
  {
    && |after| == |before|
    && forall i :: 0 <= i < |before| ==>
         match Carried(before[i])
         case None => after[i] == before[i]
         case Some(sig) =>
           && sig != [] && |before[i]| >= 3
           && after[i] == before[i][2 := if c.accepts(sig[..|sig| - 1], c.sha256(content)) then "true" else "false"]
  }

  /** A tag that ends the process: it carries no bytes at all, or has no place for a flag. */
  predicate Deadly(tag: Tag)
  {
    Carried(tag).Some? && (Carried(tag).value == [] || |tag| == 2)
  }

  /** What the verification does to an event, said tag by tag. */
  ghost predicate SentAs(h: Hub, e: Event, sent: Event)
  {
    if e.kind == 1 && h.hasKey then
      && FlagsWritten(h.crypto, e.content, e.tags, sent.tags)
      && (forall t :: t in e.tags ==> !Deadly(t))
      && sent == e.(tags := sent.tags,
                    id := if exists t :: t in e.tags && Carried(t).Some? then IdOf(h.crypto, sent) else e.id)
    else sent == e
  }

  lemma PanicsIsDeadly(c: Crypto, content: string, tag: Tag)
    ensures Panics(c, content, tag) <==> Deadly(tag)
    ensures !Deadly(tag) ==> (Verified(c, content, tag) <==> Carried(tag).Some?)
  {
  }

  /** An event is sent as the tag-by-tag account says. */
  lemma DeliveredIsSentAs(h: Hub, e: Event)
    requires Examined(h, e) ==> !AnyPanics(h.crypto, e.content, e.tags)
    ensures SentAs(h, e, Delivered(h, e))
  {
    var c, content := h.crypto, e.content;
    if Examined(h, e) {
      var tags := AllTouched(c, content, e.tags);
      forall i | 0 <= i < |e.tags|
        ensures !Panics(c, content, e.tags[i])
        ensures Verified(c, content, e.tags[i]) <==> Carried(e.tags[i]).Some?
      {
        assert e.tags[i] in e.tags;
        PanicsIsDeadly(c, content, e.tags[i]);
      }
      forall t | t in e.tags ensures !Deadly(t) && (Verified(c, content, t) <==> Carried(t).Some?) {
        PanicsIsDeadly(c, content, t);
      }
      assert FlagsWritten(c, content, e.tags, tags);
      assert AnyVerified(c, content, e.tags) <==> exists t :: t in e.tags && Carried(t).Some?;
      assert e.(tags := tags).(id := IdOf(c, e.(tags := tags))).tags == tags;
      SameTextSameId(c, e.(tags := tags), IdOf(c, e.(tags := tags)));
    }
  }

  /** The id takes no part in the text that is hashed. */
  lemma SameTextSameId(c: Crypto, e: Event, id: string)
    ensures IdOf(c, e.(id := id)) == IdOf(c, e)
  {
  }

  /** Each signature is accepted for the digest it was made for, and for no other. */
  ghost predicate Exclusive(c: Crypto)
  {
    forall d: seq<Hex.byte>, d': seq<Hex.byte> ::
      Made(c, d) && c.accepts(WithoutRecoveryId(c.sign(d).value), d') ==> d == d'
  }

  predicate Made(c: Crypto, digest: seq<Hex.byte>)
  {
    c.sign(digest).Some? && c.sign(digest).value != []
  }

  /** A note whose content is no longer the one that was tagged is sent with "false". */
  lemma ChangedIsFlagged(h: Hub, e: Event, sent: Event, i: nat, content: string)
    requires Sound(h.crypto) && Exclusive(h.crypto) && e.kind == 1 && h.hasKey && SentAs(h, e, sent)
    requires i < |e.tags| && GetSing(h.crypto, content).Some?
    requires e.tags[i] == ["hash", GetSing(h.crypto, content).value, "true"]
    requires h.crypto.sha256(e.content) != h.crypto.sha256(content)
    ensures sent.tags[i] == ["hash", GetSing(h.crypto, content).value, "false"]
  {
    Hex.Decode0xInverts(h.crypto.sign(h.crypto.sha256(content)).value);
    assert Carried(e.tags[i]) == Some(h.crypto.sign(h.crypto.sha256(content)).value);
  }

  /** The tags of an event in memory: one array for each tag, which copies of the event share. */
  ghost function View(tags: seq<array<string>>): (v: seq<Tag>)
    reads tags
    ensures |v| == |tags| && forall i :: 0 <= i < |v| ==> v[i] == tags[i][..]
  {
    if tags == [] then [] else [tags[0][..]] + View(tags[1..])
  }

  method Contents(tags: seq<array<string>>) returns (v: seq<Tag>)
    ensures v == View(tags)
  {
    v := [];
    for i := 0 to |tags|
      invariant |v| == i && forall j :: 0 <= j < i ==> v[j] == tags[j][..]
    {
      v := v + [tags[i][..]];
    }
  }

  ghost predicate Distinct(tags: seq<array<string>>)
  {
    forall i, j :: 0 <= i < j < |tags| ==> tags[i] != tags[j]
  }

  /** tag[2] = ...: the other tags have arrays of their own. */
  method WriteFlag(tags: seq<array<string>>, i: nat, flag: string)
    requires i < |tags| && tags[i].Length >= 3 && Distinct(tags)
    modifies tags[i]
    ensures View(tags) == old(View(tags))[i := old(View(tags))[i][2 := flag]]
  {
    tags[i][2] := flag;
  }

  /** One turn of the loop: the verdict goes through the shared array, and the id is
      recomputed from all the tags as they now are. */
  method VerifyTag(h: Hub, e: Event, tags: seq<array<string>>, i: nat, id: string)
    returns (panicked: bool, id': string)
    requires i < |tags| && Distinct(tags)
    modifies tags[i]
    ensures var before, c := old(View(tags)), h.crypto;
            && (panicked <==> Panics(c, e.content, before[i]))
            && (!panicked ==> View(tags) == before[i := Touched(c, e.content, before[i])])
            && (!panicked ==> id' == if Verified(c, e.content, before[i]) then IdOf(c, e.(tags := View(tags))) else id)
  {
    var tag := tags[i];
    ghost var was := tag[..];
    id', panicked := id, false;
    assert View(tags)[i] == was;
    if tag.Length >= 2 {
      if tag[0] == "hash" {
        assert IsHashTag(was);
        var b := GetVerification(h.crypto, tag[1], e.content);
        if b.Crash? || (b.Checked? && tag.Length == 2) {
          panicked := true;
        } else if b.Checked? {
          WriteFlag(tags, i, FormatBool(b.ok));
          assert View(tags)[i] == Touched(h.crypto, e.content, was);
          var now := Contents(tags);
          var p := StringifyEvent(e.(tags := now));
          id' := Hex.Encode(h.crypto.sha256(p));
        }
      }
    }
  }

  /** The tags when the first i of them have had their turn. */
  function Progress(c: Crypto, content: string, tags: seq<Tag>, i: nat): seq<Tag>
    requires i <= |tags|
  {
    AllTouched(c, content, tags[..i]) + tags[i..]
  }

  lemma ProgressStep(c: Crypto, content: string, tags: seq<Tag>, i: nat)
    requires i < |tags|
    ensures Progress(c, content, tags, i)[i] == tags[i]
    ensures Progress(c, content, tags, i + 1) == Progress(c, content, tags, i)[i := Touched(c, content, tags[i])]
    ensures AnyVerified(c, content, tags[..i + 1]) <==>
              AnyVerified(c, content, tags[..i]) || Verified(c, content, tags[i])
    ensures AnyPanics(c, content, tags[..i + 1]) <==> AnyPanics(c, content, tags[..i]) || Panics(c, content, tags[i])
    ensures Panics(c, content, tags[i]) ==> AnyPanics(c, content, tags)
  {
  }

  /** The id at that point. */
  function IdSoFar(c: Crypto, e: Event, i: nat): string
    requires i <= |e.tags|
  {
    if AnyVerified(c, e.content, e.tags[..i]) then IdOf(c, e.(tags := Progress(c, e.content, e.tags, i))) else e.id
  }

  lemma IdStep(c: Crypto, e: Event, i: nat)
    requires i < |e.tags|
    ensures IdSoFar(c, e, i + 1) ==
      if Verified(c, e.content, e.tags[i]) then IdOf(c, e.(tags := Progress(c, e.content, e.tags, i + 1)))
      else IdSoFar(c, e, i)
  {
    ProgressStep(c, e.content, e.tags, i);
    var before := Progress(c, e.content, e.tags, i);
    if !Verified(c, e.content, e.tags[i]) {
      assert before[i := before[i]] == before;
    }
  }

  /** Where the loop stands after i tags without a panic. */
  ghost predicate Turned(c: Crypto, e: Event, i: nat, view: seq<Tag>, id: string)
    requires i <= |e.tags|
  {
    && view == Progress(c, e.content, e.tags, i)
    && id == IdSoFar(c, e, i)
    && !AnyPanics(c, e.content, e.tags[..i])
  }

  lemma TurnedStep(c: Crypto, e: Event, i: nat, view: seq<Tag>, id: string, view': seq<Tag>, id': string)
    requires i < |e.tags| && Turned(c, e, i, view, id)
    requires !Panics(c, e.content, view[i])
    requires view' == view[i := Touched(c, e.content, view[i])]
    requires id' == if Verified(c, e.content, view[i]) then IdOf(c, e.(tags := view')) else id
    ensures Turned(c, e, i + 1, view', id')
  {
    ProgressStep(c, e.content, e.tags, i);
    IdStep(c, e, i);
  }

  lemma TurnedPanics(c: Crypto, e: Event, i: nat, view: seq<Tag>, id: string)
    requires i < |e.tags| && Turned(c, e, i, view, id)
    requires Panics(c, e.content, view[i])
    ensures AnyPanics(c, e.content, e.tags)
  {
  }

  /** The loop over one event's tags. */
  method VerifyTags(h: Hub, e: Event, tags: seq<array<string>>) returns (panicked: bool, id: string)
    requires e.tags == View(tags) && Distinct(tags)
    modifies tags
    ensures panicked ==> AnyPanics(h.crypto, e.content, e.tags)
    ensures !panicked ==> Turned(h.crypto, e, |tags|, View(tags), id)
  {
    id, panicked := e.id, false;
    assert Turned(h.crypto, e, 0, e.tags, id);
    for i := 0 to |tags|
      invariant Turned(h.crypto, e, i, View(tags), id)
    {
      ghost var view, was := View(tags), id;
      panicked, id := VerifyTag(h, e, tags, i, id);
      if panicked {
        TurnedPanics(h.crypto, e, i, view, was);
        return;
      }
      TurnedStep(h.crypto, e, i, view, was, View(tags), id);
    }
  }

  /** One event on its way to a subscriber. The id is not stale at the end: it belongs to the
      tags that are sent, however many verdicts were written on the way. */
  method DeliverEvent(h: Hub, e: Event, tags: seq<array<string>>) returns (panicked: bool, id: string)
    requires e.tags == View(tags) && Distinct(tags)
    modifies tags
    ensures panicked <==> Examined(h, e) && AnyPanics(h.crypto, e.content, e.tags)
    ensures panicked <==> e.kind == 1 && h.hasKey && exists t :: t in e.tags && Deadly(t)
    ensures !panicked ==> e.(id := id, tags := View(tags)) == Delivered(h, e)
    ensures !panicked ==> SentAs(h, e, e.(id := id, tags := View(tags)))
  {
    id, panicked := e.id, false;
    if e.kind == KIND_TEXT_NOTE && h.hasKey && |tags| > 0 {
      panicked, id := VerifyTags(h, e, tags);
      assert e.tags[..|tags|] == e.tags;
      assert Progress(h.crypto, e.content, e.tags, |tags|) == AllTouched(h.crypto, e.content, e.tags);
    } else if Examined(h, e) {
      assert AllTouched(h.crypto, e.content, e.tags) == e.tags;
    }
    if panicked {
      var t :| t in e.tags && Panics(h.crypto, e.content, t);
      PanicsIsDeadly(h.crypto, e.content, t);
    } else {
      DeliveredIsSentAs(h, e);
    }
  }

  /** The verdict, if there is one, is what the tag already says. */
  predicate AlreadyTouched(c: Crypto, content: string, tag: Tag)
  {
    Verified(c, content, tag) ==> |tag| >= 3 && tag[2] == FormatBool(VerdictOf(c, content, tag).ok)
  }

  lemma TouchedFixes(c: Crypto, content: string, tag: Tag)
    requires !Panics(c, content, tag)
    ensures Touched(c, content, tag) == tag <==> AlreadyTouched(c, content, tag)
  {
  }

  /** An event reaches the subscriber as it was stored exactly when each verdict is already
      in its tag and, if there is a verdict, the stored id is the hash of what it shows. */
  lemma DeliveredAsStored(h: Hub, e: Event)
    requires Examined(h, e) && !AnyPanics(h.crypto, e.content, e.tags)
    ensures Delivered(h, e) == e <==>
      && (forall t :: t in e.tags ==> AlreadyTouched(h.crypto, e.content, t))
      && (AnyVerified(h.crypto, e.content, e.tags) ==> e.id == IdOf(h.crypto, e))
  {
    var c, content := h.crypto, e.content;
    var tags := AllTouched(c, content, e.tags);
    forall i | 0 <= i < |tags| ensures tags[i] == e.tags[i] <==> AlreadyTouched(c, content, e.tags[i]) {
      assert e.tags[i] in e.tags;
      TouchedFixes(c, content, e.tags[i]);
    }
    if forall t :: t in e.tags ==> AlreadyTouched(c, content, t) {
      assert tags == e.tags;
    }
    if tags == e.tags {
      forall t | t in e.tags ensures AlreadyTouched(c, content, t) {
        var i :| 0 <= i < |e.tags| && e.tags[i] == t;
        assert tags[i] == e.tags[i];
      }
    }
  }

  // ---------- there and back ----------

  predicate NoHashTag(tags: seq<Tag>)
  {
    forall t :: t in tags ==> t == [] || t[0] != "hash"
  }

  lemma HubTagIsAppended(h: Hub, e: Event, uploads: seq<Option<string>>)
    requires |uploads| == |e.tags| && NoHashTag(e.tags) && HashAdded(h, e, uploads)
    ensures var media := MediaTags(h, e, uploads);
            && NoHashTag(media)
            && Rewritten(h, e, uploads).tags == media + [HashTag(GetSing(h.crypto, e.content).value)]
  {
    var media, tag := MediaTags(h, e, uploads), HashTag(GetSing(h.crypto, e.content).value);
    forall t | t in media ensures t == [] || t[0] != "hash" {
      var i :| 0 <= i < |media| && media[i] == t;
      assert e.tags[i] in e.tags;
      assert |t| == |e.tags[i]| && (t != [] ==> t[0] == e.tags[i][0]);
    }
    assert tag[..2][..1] == ["hash"];
    forall t | t in media && |t| >= 2 ensures !TagStartsWith(t, tag[..2]) {
      assert t[..1] == [t[0]];
    }
  }

  /** A text note that the hub tags, having carried no "hash" tag before, is delivered with
      the flag "true" and with the id it was acknowledged and pushed with. */
  lemma IdentityRoundTrip(h: Hub, e: Event, uploads: seq<Option<string>>)
    requires Sound(h.crypto)
    requires |uploads| == |e.tags| && NoHashTag(e.tags) && HubTags(h, e, uploads)
    ensures var sent := Rewritten(h, e, uploads);
            && !AnyPanics(h.crypto, sent.content, sent.tags)
            && Delivered(h, sent) == sent
            && sent.tags == MediaTags(h, e, uploads) + [["hash", GetSing(h.crypto, e.content).value, "true"]]
            && sent.id == IdOf(h.crypto, sent)
  {
    var c, sent := h.crypto, Rewritten(h, e, uploads);
    var media := MediaTags(h, e, uploads);
    var tag := HashTag(GetSing(c, e.content).value);
    ChangedMeans(h, e, uploads);
    HubTagIsAppended(h, e, uploads);
    SignedIsAccepted(c, e.content);
    forall t | t in sent.tags ensures IsHashTag(t) ==> t == tag {
      assert t in media || t == tag;
    }
    DeliveredAsStored(h, sent);
  }

  lemma RecomputedHasLongTag(h: Hub, e: Event, uploads: seq<Option<string>>) returns (i: nat)
    requires |uploads| == |e.tags| && (Changed(h, e, uploads) || HashAdded(h, e, uploads))
    ensures var tags := Rewritten(h, e, uploads).tags; i < |tags| && |tags[i]| >= 2
  {
    var media, tags := MediaTags(h, e, uploads), Rewritten(h, e, uploads).tags;
    assert media <= tags;
    if Changed(h, e, uploads) {
      if t :| t in e.tags && Mentions(t) {
        i :| 0 <= i < |e.tags| && e.tags[i] == t;
      } else {
        i :| 0 <= i < |e.tags| && IsAudio(e.tags[i]) && uploads[i].Some?;
      }
      assert |media[i]| == |e.tags[i]|;
      assert tags[i] == media[i];
    } else {
      assert e.tags == [] && media == [];
      assert tags == [HashTag(GetSing(h.crypto, e.content).value)];
      i := 0;
    }
  }

  /** Whenever the hub computes an id, some other event, with other tags, has the same id. */
  lemma RecomputedIdIsShared(h: Hub, e: Event, uploads: seq<Option<string>>)
    requires |uploads| == |e.tags| && (Changed(h, e, uploads) || HashAdded(h, e, uploads))
    ensures var sent := Rewritten(h, e, uploads);
            exists i: nat :: i < |sent.tags| && |sent.tags[i]| >= 2 &&
              var other := sent.(tags := sent.tags[i := Merged(sent.tags[i])]);
              Show(other) != Show(sent) && IdOf(h.crypto, other) == sent.id
  {
    var i := RecomputedHasLongTag(h, e, uploads);
    MergedSharesText(Rewritten(h, e, uploads), i);
  }
}
