/** Integer limits, message tags and structure sizes that both sides of the benchmark share. */
module Protocol {

  const INT_MAX: nat := 0x7FFF_FFFF
  const U64_MAX: nat := 0xFFFF_FFFF_FFFF_FFFF

  const MAX_WORKERS: nat := 128
  const MAX_RUNS: nat := 1000

  const TAG_NPB_CMD := 130
  const TAG_EP_RESULT := 131
  const TAG_CG_X := 132
  const TAG_CG_Y := 133
  const TAG_CG_MATRIX := 134
  const TAG_TIME := 135
  const TAG_STREAM_READY := 136
  const TAG_STREAM_RUN := 137
  const TAG_STREAM_RESULT := 138
  const TAG_RANDOM_READY := 139
  const TAG_RANDOM_RUN := 140
  const TAG_RANDOM_RESULT := 141
  const TAG_VMAP_READY := 142
  const TAG_VMAP_INPUT := 143
  const TAG_VMAP_OUTPUT := 144
  const TAG_VMAP_RESULT := 145
  const TAG_TASKQ_READY := 146
  const TAG_TASKQ_CONTROL := 147
  const TAG_TASKQ_TASK := 148
  const TAG_TASKQ_INPUT := 149
  const TAG_TASKQ_RESULT := 150
  const TAG_TASKQ_OUTPUT := 151

  // `sizeof` of the command, of a readiness report, and of the three structures of the task queue.
  const CMD_SIZE: nat := 104
  const READY_SIZE: nat := 16
  const CONTROL_SIZE: nat := 8
  const TASK_SIZE: nat := 32
  const RESULT_SIZE: nat := 40

  const MIB_BYTES: nat := 1024 * 1024

  // Working set sizes of STREAM and VMAP, and of RANDOM, in MiB.
  const MIN_MIB: nat := 1
  const MAX_MIB: nat := 128
  const MIN_RANDOM_MIB: nat := 32
  const MAX_RANDOM_MIB: nat := 256
}
