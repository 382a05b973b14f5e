/** The names and defaults the editor itself uses (static/js/app/skill-test.js). */
module EditorConfig {
  import opened Options
  import opened TimelineIds
  import opened Timeline

  const EXPECTATION_LANE := "expected.semantic"
  const INPUT_LANE := "input.text"

  const DEFAULT_LANES: seq<Lane> := [
    Lane("sensor.gps", map["kind" := "input", "label" := "GPS",
                           "event_kind" := "sensor.gps.reading.v1", "mime_type" := "application/json"]),
    Lane("sensor.pose3d", map["kind" := "input", "label" := "三轴定位",
                              "event_kind" := "sensor.pose3d.reading.v1", "mime_type" := "application/json"]),
    Lane("input.text", map["kind" := "input", "label" := "文本"]),
    Lane("input.image", map["kind" := "input", "label" := "图片"]),
    Lane("input.audio", map["kind" := "input", "label" := "音频"]),
    Lane("input.video", map["kind" := "input", "label" := "视频"]),
    Lane("expected.semantic", map["kind" := "output", "label" := "文本"])
  ]

  function IdPrefix(laneId: string): (prefix: string)
    ensures prefix != "" && 'a' <= prefix[0] <= 'z'
  {
    if laneId == EXPECTATION_LANE then "expected"
    else if laneId == "sensor.gps" then "gps"
    else if laneId == "sensor.pose3d" then "pose"
    else "input"
  }

  function Editor(formDuration: Option<real>, text: Printer): Config {
    Config(EXPECTATION_LANE, INPUT_LANE, IdPrefix, DEFAULT_LANES, formDuration, 1800000.0, text)
  }

  /** The editor's own configuration is a sound one, for any printer of numerals. */
  lemma EditorIsValid(formDuration: Option<real>, text: Printer)
    requires forall x :: text(x) != "" && !IsSpace(text(x)[|text(x)| - 1])
    ensures ValidConfig(Editor(formDuration, text))
  {
    var c := Editor(formDuration, text);
    forall l ensures c.prefixOf(l) != "" && !IsSpace(c.prefixOf(l)[0]) {
      assert c.prefixOf(l) == IdPrefix(l);
    }
    var lengths := [10, 13, 10, 11, 11, 11, 17];
    forall i | 0 <= i < |c.lanes| ensures |c.lanes[i].id| == lengths[i] {}
    assert c.lanes[0].id[0] == 's' && c.lanes[2].id[0] == 'i';
    assert c.lanes[3].id[6] == 'i' && c.lanes[4].id[6] == 'a' && c.lanes[5].id[6] == 'v';
  }
}
