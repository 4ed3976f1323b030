/**
 Uploaded files and the orphan sweep. `UploadStore` keeps the files of one storage directory;
 `Staging` is the token table in front of it.
 */
module Uploads {
  import opened Common

  type Path = string
  type Token = string

  datatype StagedImage = StagedImage(channelID: int, userID: int, path: Path)

  /** The files a sweep removes: old enough and not referenced. */
  predicate Orphan<P(==)>(mtime: int, path: P, referenced: set<P>, cutoff: int) {
    mtime <= cutoff && path !in referenced
  }

  class UploadStore {
    var files: map<Path, int>  // modification times

    constructor ()
      ensures files == map[]
    {
      files := map[];
    }

    /** `path` carries a random token, so it names no file yet. */
    method Write(path: Path, now: int)
      requires path !in files
      modifies this
      ensures files == old(files)[path := now]
    {
      files := files[path := now];
    }

    /** Deleting a missing file, or nothing, is not an error. */
    method Delete(path: Path)
      modifies this
      ensures files == old(files) - {path}
    {
      files := files - {path};
    }

    /** Walk the files and remove every orphan; `removed` counts them. */
    method SweepOrphans(referenced: set<Path>, olderThan: int, now: int) returns (removed: nat)
      modifies this
      ensures var (before, cutoff) := (old(files), now - olderThan);
              files == map p | p in before && !Orphan(before[p], p, referenced, cutoff) :: before[p]
      ensures removed == |old(files)| - |files|
    {
      var cutoff := now - olderThan;
      removed := 0;
      ghost var before := files;
      var rest := files.Keys;
      while rest != {}
        invariant rest <= files.Keys
        invariant forall p :: p in files ==> p in before && files[p] == before[p]
        invariant forall p :: p in before && p !in files ==> Orphan(before[p], p, referenced, cutoff)
        invariant forall p :: p in files && p !in rest ==> !Orphan(before[p], p, referenced, cutoff)
        invariant removed == |before| - |files|
        decreases rest
      {
        var path :| path in rest;
        rest := rest - {path};
        if files[path] > cutoff {
          continue;
        }
        if path in referenced {
          continue;
        }
        assert files.Keys == (files - {path}).Keys + {path};
        files := files - {path};
        removed := removed + 1;
      }
    }
  }

  /** Staged tokens with the last instant at which each can still be taken. */
  class Staging {
    var tokens: map<Token, (StagedImage, int)>

    constructor ()
      ensures tokens == map[]
    {
      tokens := map[];
    }

    method StageUpload(token: Token, image: StagedImage, ttl: int, now: int)
      modifies this
      ensures tokens == old(tokens)[token := (image, now + ttl)]
    {
      tokens := tokens[token := (image, now + ttl)];
    }

    /** Taking a token consumes it; an expired one is gone. */
    method TakeUpload(token: Token, now: int) returns (image: Option<StagedImage>)
      modifies this
      ensures image == if token in old(tokens) && now <= old(tokens)[token].1 then Some(old(tokens)[token].0) else None
      ensures tokens == old(tokens) - {token}
    {
      image := None;
      if token in tokens && now <= tokens[token].1 {
        image := Some(tokens[token].0);
      }
      tokens := tokens - {token};
    }
  }
}
