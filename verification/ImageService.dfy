/** Uploading, posting and sweeping as one server performs them, over the store and the token table. */
module ImageService {
  import opened Common
  import opened Uploads

  type MessageID = int

  datatype Poster = Poster(channelID: int, userID: int)

  datatype MessageRow = MessageRow(id: MessageID, body: string, imagePath: Option<Path>)

  /** The paths that ListAllImagePaths selects: neither NULL nor empty. */
  function ImagePaths(messages: seq<MessageRow>): set<Path> {
    set m | m in messages && m.imagePath.Some? && m.imagePath.value != "" :: m.imagePath.value
  }

  /** resolveImage: nothing attached, an image that may be posted, or a refusal. */
  datatype Resolution = NoImage | Attached(image: StagedImage) | Refused

  function Resolve(found: Option<StagedImage>, poster: Poster): Resolution {
    if found.None? then Refused
    else if found.value.userID != poster.userID || found.value.channelID != poster.channelID || found.value.path == ""
    then Refused
    else Attached(found.value)
  }

  /** The token is staged and live, for this user in this channel, and names a file. */
  predicate MayPost(tokens: map<Token, (StagedImage, int)>, token: Token, poster: Poster, now: int) {
    && token in tokens && now <= tokens[token].1
    && tokens[token].0.userID == poster.userID && tokens[token].0.channelID == poster.channelID
    && tokens[token].0.path != ""
  }

  class ImageServer {
    const store: UploadStore
    const staging: Staging
    const stagingTTL: int
    var messages: seq<MessageRow>

    constructor (stagingTTL: int)
      ensures fresh(store) && fresh(staging) && messages == []
    {
      this.stagingTTL := stagingTTL;
      store := new UploadStore();
      staging := new Staging();
      messages := [];
    }

    /** Save, then stage; a failed staging takes the file back. */
    method UploadChannelImage(path: Path, token: Token, uploader: Poster, stageOk: bool, savedAt: int, stagedAt: int)
      returns (ok: bool)
      requires path !in store.files
      modifies store, staging
      ensures ok == stageOk
      ensures ok ==>
                && store.files == old(store.files)[path := savedAt]
                && var staged := (StagedImage(uploader.channelID, uploader.userID, path), stagedAt + stagingTTL);
                   staging.tokens == old(staging.tokens)[token := staged]
      ensures !ok ==> store.files == old(store.files) && staging.tokens == old(staging.tokens)
    {
      store.Write(path, savedAt);
      if !stageOk {
        store.Delete(path);
        return false;
      }
      staging.StageUpload(token, StagedImage(uploader.channelID, uploader.userID, path), stagingTTL, stagedAt);
      return true;
    }

    /** resolveImage: the token is consumed even when the image turns out to belong to someone else. */
    method ResolveImage(token: Token, poster: Poster, now: int) returns (r: Resolution)
      modifies staging
      ensures token == "" ==> r == NoImage && staging.tokens == old(staging.tokens)
      ensures token != "" ==> if MayPost(old(staging.tokens), token, poster, now)
                              then r == Attached(old(staging.tokens)[token].0) else r == Refused
      ensures token != "" ==>
                && staging.tokens == old(staging.tokens) - {token}
                && r == Resolve(if token in old(staging.tokens) && now <= old(staging.tokens)[token].1
                                then Some(old(staging.tokens)[token].0) else None, poster)
    {
      if token == "" {
        return NoImage;
      }
      var found := staging.TakeUpload(token, now);
      if found.None? {
        return Refused;
      }
      var image := found.value;
      if image.userID != poster.userID || image.channelID != poster.channelID || image.path == "" {
        return Refused;
      }
      return Attached(image);
    }

    /** The attach path of handleChatMessage: take the token, then insert the message. */
    method PostWithImage(token: Token, poster: Poster, body: string, id: MessageID, insertOk: bool, now: int)
      returns (posted: bool)
      modifies this`messages, staging
      ensures var r := if token == "" then NoImage
                       else Resolve(if token in old(staging.tokens) && now <= old(staging.tokens)[token].1
                                    then Some(old(staging.tokens)[token].0) else None, poster);
              && posted == (!r.Refused? && (body != "" || r.Attached?) && insertOk)
              && messages == old(messages) +
                   if posted then [MessageRow(id, body, if r.Attached? then Some(r.image.path) else None)] else []
      ensures staging.tokens == if token == "" then old(staging.tokens) else old(staging.tokens) - {token}
      ensures token != "" && MayPost(old(staging.tokens), token, poster, now) && insertOk ==>
                messages == old(messages) + [MessageRow(id, body, Some(old(staging.tokens)[token].0.path))]
      ensures token != "" && !(MayPost(old(staging.tokens), token, poster, now) && insertOk) ==>
                messages == old(messages)
      ensures token == "" ==>
                messages == old(messages) + if body != "" && insertOk then [MessageRow(id, body, None)] else []
    {
      var r := ResolveImage(token, poster, now);
      if r.Refused? || (body == "" && r.NoImage?) || !insertOk {
        return false;
      }
      messages := messages + [MessageRow(id, body, if r.Attached? then Some(r.image.path) else None)];
      return true;
    }

    /** List the referenced paths, add the service header image, and sweep with the safety margin. */
    method SweepOrphanImages(header: Path, now: int) returns (removed: nat)
      modifies store
      ensures var referenced := ImagePaths(messages) + if header == "" then {} else {header};
              var (files, cutoff) := (old(store.files), now - (stagingTTL + HOUR));
              store.files == map p | p in files && !Orphan(files[p], p, referenced, cutoff) :: files[p]
      ensures forall m, p :: m in messages && m.imagePath == Some(p) && p != "" && p in old(store.files) ==>
                p in store.files
      ensures header != "" && header in old(store.files) ==> header in store.files
      ensures forall p :: p in old(store.files) && p !in store.files ==>
                old(store.files)[p] <= now - (stagingTTL + HOUR)
      ensures forall p :: p in store.files ==>
                || now - (stagingTTL + HOUR) < store.files[p]
                || (header != "" && p == header)
                || exists m :: m in messages && m.imagePath == Some(p)
      ensures removed == |old(store.files)| - |store.files|
    {
      var referenced: set<Path> := {};
      for i := 0 to |messages|
        invariant referenced == ImagePaths(messages[..i])
      {
        assert messages[..i + 1] == messages[..i] + [messages[i]];
        if messages[i].imagePath.Some? && messages[i].imagePath.value != "" {
          referenced := referenced + {messages[i].imagePath.value};
        }
      }
      assert messages[..|messages|] == messages;
      if header != "" {
        referenced := referenced + {header};
      }
      removed := store.SweepOrphans(referenced, stagingTTL + HOUR, now);
    }
  }
}
