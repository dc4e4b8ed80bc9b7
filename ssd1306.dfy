/** Geometry and opcode table of the SSD1306 controller as the driver configures it
    (a 128x32 panel at bus address 0x3C). */
module Ssd1306 {

  const WIDTH: int := 128
  const HEIGHT: int := 32
  /** Number of 8-row pages on the panel. */
  const PAGES: int := HEIGHT / 8
  /** The framebuffer is allocated with this many bytes. */
  const BUFFER_SIZE: int := 512
  const ADDRESS: bv8 := 0x3C

  const DISPLAY_OFF: bv8 := 0xAE
  const DISPLAY_ON: bv8 := 0xAF
  const SET_DISPLAY_CLOCK_DIV: bv8 := 0xD5
  const SET_MULTIPLEX: bv8 := 0xA8
  const SET_DISPLAY_OFFSET: bv8 := 0xD3
  const SET_START_LINE: bv8 := 0x00
  const CHARGE_PUMP: bv8 := 0x8D
  const EXTERNAL_VCC: bool := false
  const MEMORY_MODE: bv8 := 0x20
  const SEG_REMAP: bv8 := 0xA0
  const COM_SCAN_DEC: bv8 := 0xC8
  const COM_SCAN_INC: bv8 := 0xC0
  const SET_COM_PINS: bv8 := 0xDA
  const SET_CONTRAST: bv8 := 0x81
  const SET_PRECHARGE: bv8 := 0xD9
  const SET_VCOM_DETECT: bv8 := 0xDB
  const DISPLAY_ALL_ON_RESUME: bv8 := 0xA4
  const NORMAL_DISPLAY: bv8 := 0xA6
  const COLUMN_ADDR: bv8 := 0x21
  const PAGE_ADDR: bv8 := 0x22
  const INVERT_DISPLAY: bv8 := 0xA7
  const ACTIVATE_SCROLL: bv8 := 0x2F
  const DEACTIVATE_SCROLL: bv8 := 0x2E
  const SET_VERTICAL_SCROLL_AREA: bv8 := 0xA3
  const RIGHT_HORIZONTAL_SCROLL: bv8 := 0x26
  const LEFT_HORIZONTAL_SCROLL: bv8 := 0x27
  const VERTICAL_AND_RIGHT_HORIZONTAL_SCROLL: bv8 := 0x29
  const VERTICAL_AND_LEFT_HORIZONTAL_SCROLL: bv8 := 0x2A

  /** The fixed buffer size is exactly one bit per pixel of the panel, page by page. */
  lemma BufferFitsPanel()
    ensures BUFFER_SIZE == WIDTH * HEIGHT / 8 == WIDTH * PAGES
  {
  }
}
