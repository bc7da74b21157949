/**
 * The `cseries_Status` object: the fields its constructor sets from one reply, and the five fields
 * `parse` fills in from the status table.
 */
module StatusObject {
  import opened Base
  import opened StatusTable
  import opened StatusFrame

  /**
   * `cseries_Status`: one decoded reply. `response` is None for bytes that are not UTF-8, and then
   * `address`, `status` and `data` carry no meaning (the source never sets them). The fields `parse`
   * writes start out unset.
   */
  class Status {
    var response: Option<string>
    var address: char
    var status: char
    var data: string

    var infoKey: Option<string>
    var statusCode: Option<char>
    var statusMessage: Option<string>
    var busyOrIdle: Option<Activity>
    var statusBool: Option<bool>

    constructor FromText(response: Option<string>, r: Reply)
      ensures this.response == response
      ensures address == r.address && status == r.status && data == r.data
      ensures infoKey.None? && statusCode.None? && statusMessage.None? && busyOrIdle.None? && statusBool.None?
    {
      this.response := response;
      address, status, data := r.address, r.status, r.data;
      infoKey, statusCode, statusMessage, busyOrIdle, statusBool := None, None, None, None, None;
    }

    /** `cseries_Status(raw)`; None where the source raises IndexError on a reply too short to split. */
    static method Create(raw: seq<byte>) returns (st: Option<Status>)
      ensures st.None? <==> DecodeReply(raw).Truncated?
      ensures st.Some? ==> fresh(st.value)
      ensures st.Some? ==>
        st.value.infoKey.None? && st.value.statusCode.None? && st.value.statusMessage.None?
        && st.value.busyOrIdle.None? && st.value.statusBool.None?
      ensures st.Some? && DecodeReply(raw).Undecodable? ==> st.value.response.None?
      ensures st.Some? && DecodeReply(raw).Decoded? ==>
        var d := DecodeReply(raw);
        st.value.response == Some(d.text) && st.value.address == d.reply.address
        && st.value.status == d.reply.status && st.value.data == d.reply.data
    {
      var d := DecodeReply(raw);
      if d.Truncated? {
        st := None;
      } else if d.Undecodable? {
        var s := new Status.FromText(None, Reply('?', '?', ""));
        st := Some(s);
      } else {
        var s := new Status.FromText(Some(d.text), d.reply);
        st := Some(s);
      }
    }

    /**
     * `parse`: walks the table in order to the first entry whose code matches, which sets all five
     * fields. Without a match the message is the not-recognised text; the source also writes that
     * text once for every entry passed before a match, which the match then overwrites, so the
     * writes are made here only once the walk is over. Reading `status` when `response` is None
     * raises AttributeError, returned here as false.
     */
    method Parse() returns (ok: bool)
      modifies this
      ensures ok <==> old(response).Some?
      ensures response == old(response) && address == old(address) && status == old(status) && data == old(data)
      ensures !ok ==> unchanged(this)
      ensures ok ==> match Lookup(status)
        case Some(e) =>
          infoKey == Some(e.key) && statusCode == Some(e.code) && statusMessage == Some(e.message)
          && busyOrIdle == Some(e.activity) && statusBool == Some(e.healthy)
        case None =>
          statusMessage == Some(NotRecognized) && infoKey == old(infoKey) && statusCode == old(statusCode)
          && busyOrIdle == old(busyOrIdle) && statusBool == old(statusBool)
    {
      if response.None? {
        return false;
      }
      ok := true;
      var i := 0;
      while i < |Table| && Table[i].code != status
        invariant 0 <= i <= |Table|
        invariant Find(status, i) == Find(status, 0)
      {
        i := i + 1;
      }
      if i < |Table| {
        var e := Table[i];
        infoKey, statusCode, statusMessage := Some(e.key), Some(e.code), Some(e.message);
        busyOrIdle, statusBool := Some(e.activity), Some(e.healthy);
      } else {
        statusMessage := Some(NotRecognized);
      }
    }
  }
}
