/** From packets on the wire, through the threads, to the file. */
module EndToEnd {
  import opened Wire
  import opened FileStore
  import opened Upload
  import opened Reconstruction
  import opened Schedule

  /** Once the file worker is idle, under whatever schedule, a file that was sent piece by piece is
      there: the source, followed by what the file held beyond it. */
  lemma UploadUnderAnySchedule(files: map<Name, Bytes>, acts: seq<Action>, f: Name, src: Bytes,
                               w: Worker<Input, (State, seq<Effect>)>)
    requires w == ActAll(PowerUp(files), acts).file && Idle(w)
    requires forall k: nat :: DataFor(Init(files), FileArrivals(acts), k, f) ==> Faithful(FileArrivals(acts)[k], src)
    requires forall i :: 0 <= i < |src| ==> Arrived(Init(files), FileArrivals(acts), f, i)
    requires forall k: nat :: !Truncates(Init(files), FileArrivals(acts), k, f)
    ensures Content(w.state.0.fs, f) == src + Tail(if f in files then files[f] else [], |src|)
  {
    FileWorkerRuns(files, acts, w);
    UploadReconstructs(Init(files), FileArrivals(acts), f, src);
  }

  /** A piece of the source that the ground encodes, and that the file system stores in full, is
      received as a faithful DATA. */
  lemma EncodedPieceIsFaithful(sid: u16, src: Bytes, offset: u32, size: nat, env: Env)
    requires offset + size <= |src| && size <= UPLOAD_DATA_LEN
    requires env.seeks && env.written >= size
    ensures WellFormed(EncodeData(sid, offset, src[offset..offset + size]))
    ensures var input := Receive(EncodeData(sid, offset, src[offset..offset + size]), env);
      input.req.Data? && input.req.sid == sid && Faithful(input, src)
  {
    DataRoundTrip(sid, offset, src[offset..offset + size]);
  }
}
