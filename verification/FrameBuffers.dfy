/** The ring as the program writes it: the convert thread's and the draw loop's steps on the shared indices and
    textures. */
module FrameTextures {
  import opened FrameRing

  class FrameBuffers {
    var nextStoreIndex: nat
    var nextDrawIndex: nat
    const largeImage: array<Picture>

    /** The convert thread's copies of the indices. */
    var storeRead: nat
    var drawRead: nat

    /** The draw loop's texture and its count of the pictures that are ready. */
    var imageIndex: nat
    var isAhead: bool
    var bufferHealth: nat

    ghost var converter: Converter
    ghost var viewer: Viewer
    ghost var stored: seq<Picture>
    ghost var shown: seq<Picture>

    ghost function Now(): Ring
      reads this, largeImage
    {
      Ring(nextStoreIndex, nextDrawIndex, largeImage[..], imageIndex, converter, viewer, stored, shown)
    }

    /** What each side has read is what the model says it has. */
    ghost predicate Agrees()
      reads this, largeImage
    {
      Inv(Now()) &&
      (converter.Looked? ==> converter.store == storeRead && converter.draw == drawRead) &&
      (converter.Filling? ==> converter.store == storeRead) &&
      (viewer.Compared? ==> viewer.ahead == isAhead) &&
      (viewer.Saw? ==> viewer.health == bufferHealth)
    }

    constructor ()
      ensures Agrees() && Starts(Now()) && fresh(largeImage)
    {
      nextStoreIndex, nextDrawIndex, imageIndex, storeRead, drawRead, isAhead, bufferHealth := 0, 0, VIDEO_BUFFERS - 1, 0, 0, false, 0;
      largeImage := new Picture[VIDEO_BUFFERS];
      converter, viewer, stored, shown := Resting, Away, [], [];
    }

    // ---- The convert thread --------------------------------------------------------------------------

    method ReadIndices()
      requires Agrees() && converter.Resting?
      modifies this`storeRead, this`drawRead, this`converter
      ensures Agrees() && Now() == ConvertStep(old(Now()), Look)
    {
      ConvertKeeps(Now(), Look);
      storeRead := nextStoreIndex;
      drawRead := nextDrawIndex;
      converter := Looked(storeRead, drawRead, Passed(Now()));
    }

    /** There is room exactly if less than three pictures were ready when the indices were read. */
    method HasRoom() returns (room: bool)
      requires Agrees() && converter.Looked?
      modifies this`converter
      ensures Agrees() && Now() == ConvertStep(old(Now()), Check) && room == converter.Filling?
      ensures room <==> |stored| - old(converter).seen < 3
    {
      ConvertKeeps(Now(), Check);
      HealthIs(|stored|, converter.seen);
      var health;
      if drawRead <= storeRead {
        health := storeRead - drawRead;
      } else {
        health := VIDEO_BUFFERS - drawRead + storeRead;
      }
      room := health + 1 < VIDEO_BUFFERS;
      converter := if room then Filling(storeRead) else Resting;
    }

    method SetData(video: Picture)
      requires Agrees() && converter.Filling?
      modifies largeImage
      ensures Agrees() && Now() == ConvertStep(old(Now()), Fill(video)) && largeImage[nextStoreIndex] == video
    {
      ConvertKeeps(Now(), Fill(video));
      largeImage[nextStoreIndex] := video;
      assert largeImage[..] == old(largeImage[..])[nextStoreIndex := video];
    }

    method StoreNext()
      requires Agrees() && converter.Filling?
      modifies this`nextStoreIndex, this`storeRead, this`converter, this`stored
      ensures Agrees() && Now() == ConvertStep(old(Now()), Publish)
      ensures stored == old(stored) + [largeImage[old(nextStoreIndex)]] && nextStoreIndex == (old(nextStoreIndex) + 1) % 4
    {
      ConvertKeeps(Now(), Publish);
      stored := stored + [largeImage[nextStoreIndex]];
      if storeRead + 1 < VIDEO_BUFFERS {
        storeRead := storeRead + 1;
      } else {
        storeRead := 0;
      }
      nextStoreIndex := storeRead;
      converter := Resting;
    }

    // ---- The draw loop -------------------------------------------------------------------------------

    method AssignPreviousFrame()
      requires Agrees() && viewer.Away?
      modifies this`imageIndex, this`viewer
      ensures Agrees() && Now() == DrawStep(old(Now()), BeginFrame) && imageIndex == (nextDrawIndex + 3) % 4
    {
      DrawKeeps(Now(), BeginFrame);
      if nextDrawIndex > 0 {
        imageIndex := nextDrawIndex - 1;
      } else {
        imageIndex := VIDEO_BUFFERS - 1;
      }
      viewer := Begun;
    }

    method CompareIndices()
      requires Agrees() && viewer.Begun?
      modifies this`isAhead, this`viewer
      ensures Agrees() && Now() == DrawStep(old(Now()), Compare)
    {
      DrawKeeps(Now(), Compare);
      isAhead := nextDrawIndex <= nextStoreIndex;
      viewer := Compared(isAhead);
    }

    /** The store index is read again, and the difference kept in eight bits; it is positive exactly if a picture
        is ready. */
    method CheckHealth()
      requires Agrees() && viewer.Compared?
      modifies this`bufferHealth, this`viewer
      ensures Agrees() && Now() == DrawStep(old(Now()), See)
      ensures bufferHealth > 0 <==> |stored| > |shown|
    {
      DrawKeeps(Now(), See);
      SeenIsReady(|stored|, |shown|, isAhead);
      if isAhead {
        bufferHealth := (nextStoreIndex - nextDrawIndex) % 256;
      } else {
        bufferHealth := (VIDEO_BUFFERS - nextDrawIndex) + nextStoreIndex;
      }
      viewer := Saw(bufferHealth);
    }

    method ShowNext() returns (next: bool)
      requires Agrees() && viewer.Saw?
      modifies this`imageIndex, this`viewer, this`shown
      ensures Agrees() && Now() == DrawStep(old(Now()), Show) && next == viewer.Showing?
      ensures next <==> old(bufferHealth) > 0
      ensures next ==> imageIndex == nextDrawIndex && shown == old(shown) + [largeImage[imageIndex]]
    {
      DrawKeeps(Now(), Show);
      next := bufferHealth > 0;
      if next {
        imageIndex := nextDrawIndex;
        shown := shown + [largeImage[nextDrawIndex]];
        viewer := Showing;
      }
    }

    method DrawNext()
      requires Agrees() && viewer.Showing?
      modifies this`nextDrawIndex, this`viewer
      ensures Agrees() && Now() == DrawStep(old(Now()), Advance) && nextDrawIndex == (old(nextDrawIndex) + 1) % 4
    {
      DrawKeeps(Now(), Advance);
      if nextDrawIndex + 1 < VIDEO_BUFFERS {
        nextDrawIndex := nextDrawIndex + 1;
      } else {
        nextDrawIndex := 0;
      }
      viewer := Away;
    }
  }
}
